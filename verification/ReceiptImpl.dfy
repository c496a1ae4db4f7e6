/** The receipt wrapper. */
module ReceiptImplementation {
  import opened Base
  import opened Decimal
  import opened Environment
  import opened Records
  import opened RecordCodec
  import opened RecordStreams
  import opened SharedRecords
  import opened ReceiptState

  class TransactionReceiptImpl {
    const env: Env
    const inner: ReceiptRef
    var logs: seq<LogView>

    ghost function State(): ReceiptView
      requires inner.Live()
      reads this, inner.Home()
    {
      ReceiptView(inner.Get(), logs)
    }

    /** The getter is kept, not called: the element it denotes need not exist yet. */
    constructor (env: Env, inner: ReceiptRef)
      ensures this.env == env && this.inner == inner && logs == []
    {
      this.env, this.inner, logs := env, inner, [];
    }

    /** A failed decode leaves the record undefined. */
    method Decode(input: bytes) returns (ok: bool)
      requires inner.Live()
      modifies inner.Home()
      ensures inner.Live() && inner.OnlyThis()
      ensures ok <==> DecodeReceipt(input).Ok?
      ensures ok ==> State() == ReceiptStep(env, old(State()), DecodeFrom(input))
      ensures ok ==> inner.Get() == DecodeReceipt(input).value
    {
      hide DecodeReceipt;
      var r := DecodeReceipt(input);
      ok := r.Ok?;
      inner.Put(if ok then r.value else DEFAULT_RECEIPT);
    }

    method Encode() returns (encoded: bytes)
      requires inner.Live()
      ensures encoded == EncodeReceipt(inner.Get(), env.omit)
    {
      encoded := WriteReceipt(env, inner.Get());
    }

    method Hash() returns (hash: H256)
      requires inner.Live() && Readable(inner.Get().dataHash)
      modifies inner.Home()
      ensures inner.Live() && inner.OnlyThis()
      ensures State() == ReceiptStep(env, old(State()), GetHash)
      ensures hash == ReceiptHashResult(env, old(inner.Get()))
      ensures hash == if old(inner.Get().dataHash) != [] then old(inner.Get().dataHash)[..32]
        else env.hash(EncodeReceiptData(old(inner.Get().data), env.omit))
      ensures inner.Get() == old(inner.Get()).(dataHash := inner.Get().dataHash) && inner.Get().dataHash[..32] == hash
    {
      hide EncodeReceiptData;
      if inner.Get().dataHash == [] {
        var data := WriteReceiptData(env, inner.Get().data);
        inner.Put(inner.Get().(dataHash := env.hash(data)));
      }
      hash := inner.Get().dataHash[..32];
    }

    method GasUsed() returns (gas: Option<u256>)
      requires inner.Live()
      ensures gas == ReceiptGasUsed(inner.Get())
      ensures inner.Get().data.gasUsed == [] ==> gas == Some(0)
      ensures forall n: u256 :: inner.Get().data.gasUsed == Print(n) ==> gas == Some(n)
    {
      forall n: u256
        ensures Print(n) != [] && Parse(Print(n)) == Some(n)
      {
        ParseOfPrint(n);
      }
      if inner.Get().data.gasUsed != [] {
        return Parse(inner.Get().data.gasUsed);
      }
      gas := Some(0);
    }

    method LogEntries() returns (result: seq<LogView>)
      requires inner.Live()
      modifies `logs
      ensures inner.Live() && State() == ReceiptStep(env, old(State()), GetLogEntries)
      ensures result == LogsResult(env, old(State()))
      ensures result == logs && (old(logs) != [] ==> result == old(logs))
      ensures var stored := old(inner.Get().data.logEntries);
        old(logs) == [] ==> |result| == |stored| && forall i | 0 <= i < |stored| ::
          && result[i].address == stored[i].address && result[i].data == stored[i].data
          && |result[i].topics| == |stored[i].topic|
          && forall j | 0 <= j < |stored[i].topic| :: result[i].topics[j] == env.topic(stored[i].topic[j])
    {
      if logs == [] {
        var stored := inner.Get().data.logEntries;
        var i := 0;
        while i < |stored|
          invariant i <= |stored|
          invariant logs == ReadLogs(env, stored[..i])
        {
          var topics: seq<H256> := [];
          var j := 0;
          while j < |stored[i].topic|
            invariant j <= |stored[i].topic|
            invariant topics == ReadTopics(env, stored[i].topic[..j])
          {
            topics := topics + [env.topic(stored[i].topic[j])];
            j := j + 1;
          }
          assert stored[i].topic[..j] == stored[i].topic;
          logs := logs + [LogView(stored[i].address, topics, stored[i].data)];
          i := i + 1;
        }
        assert stored[..i] == stored;
      }
      result := logs;
    }

    method SetLogEntries(list: seq<LogView>)
      requires inner.Live()
      modifies `logs, inner.Home()
      ensures inner.Live() && inner.OnlyThis()
      ensures State() == ReceiptStep(env, old(State()), ReceiptOp.SetLogEntries(list))
      ensures var stored := inner.Get().data.logEntries;
        && inner.Get() == old(inner.Get()).(data := old(inner.Get().data).(logEntries := stored))
        && |stored| == |list|
        && forall i | 0 <= i < |list| ::
             stored[i].address == list[i].address && stored[i].topic == list[i].topics && stored[i].data == list[i].data
      ensures logs == []
    {
      logs := [];
      var r := inner.Get();
      inner.Put(r.(data := r.data.(logEntries := [])));
      var i := 0;
      while i < |list|
        invariant i <= |list| && logs == [] && inner.Live() && inner.OnlyThis()
        invariant inner.Get() == r.(data := r.data.(logEntries := StoreLogs(list[..i])))
      {
        var topic: seq<bytes> := [];
        var j := 0;
        while j < |list[i].topics|
          invariant j <= |list[i].topics|
          invariant topic == StoreTopics(list[i].topics[..j])
        {
          topic := topic + [list[i].topics[j]];
          j := j + 1;
        }
        assert list[i].topics[..j] == list[i].topics;
        var entry := LogEntry(list[i].address, topic, list[i].data);
        var data := inner.Get().data;
        inner.Put(inner.Get().(data := data.(logEntries := data.logEntries + [entry])));
        assert StoreLogs(list[..i + 1]) == StoreLogs(list[..i]) + [entry];
        i := i + 1;
      }
      assert list[..i] == list;
    }

    method SetInner(r: Receipt)
      requires inner.Live()
      modifies inner.Home()
      ensures inner.Live() && inner.OnlyThis()
      ensures State() == ReceiptStep(env, old(State()), ReplaceInner(r))
      ensures inner.Get() == r
    {
      inner.Put(r);
    }
  }

  method CreateReceipt(env: Env, gas: u256, contractAddress: bytes, list: seq<LogView>, status: int32, output: bytes,
                       blockNumber: int64) returns (receipt: TransactionReceiptImpl)
    ensures fresh(receipt) && fresh(receipt.inner.Home()) && receipt.env == env && receipt.inner.Live()
    ensures receipt.State() == ReceiptView(BuildReceipt(gas, contractAddress, list, status, output, blockNumber), [])
    ensures var r := receipt.inner.Get();
      && r.data.version == 0 && r.data.gasUsed == Print(gas) && r.data.contractAddress == contractAddress
      && r.data.status == status && r.data.output == output && r.data.blockNumber == blockNumber && r.dataHash == []
      && |r.data.logEntries| == |list|
      && forall i | 0 <= i < |list| ::
           && r.data.logEntries[i].address == list[i].address && r.data.logEntries[i].topic == list[i].topics
           && r.data.logEntries[i].data == list[i].data
    ensures receipt.logs == []
  {
    var cell := new ReceiptCell(DEFAULT_RECEIPT);
    receipt := new TransactionReceiptImpl(env, OwnReceipt(cell));
    cell.rec := cell.rec.(data := cell.rec.data.(version := 0));
    cell.rec := cell.rec.(data := cell.rec.data.(gasUsed := Print(gas)));
    cell.rec := cell.rec.(data := cell.rec.data.(contractAddress := contractAddress));
    cell.rec := cell.rec.(data := cell.rec.data.(status := status));
    cell.rec := cell.rec.(data := cell.rec.data.(output := output));
    receipt.SetLogEntries(list);
    cell.rec := cell.rec.(data := cell.rec.data.(blockNumber := blockNumber));
  }
}
