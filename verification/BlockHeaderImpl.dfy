/** The block header wrapper: a view of a header record, its own or a block's. */
module BlockHeaderImplementation {
  import opened Base
  import opened Decimal
  import opened Environment
  import opened Records
  import opened RecordCodec
  import opened RecordStreams
  import opened SharedRecords
  import opened HeaderState

  class BlockHeaderImpl {
    const env: Env
    const inner: HeaderRef
    var parents: seq<ParentView>

    constructor (env: Env, inner: HeaderRef)
      ensures this.env == env && this.inner == inner && parents == []
    {
      this.env, this.inner, parents := env, inner, [];
    }

    /** A failed decode leaves the record undefined. */
    method Decode(input: bytes) returns (ok: bool)
      modifies inner.Home()
      ensures ok <==> DecodeHeader(input).Ok?
      ensures ok ==> inner.Get() == Write(env, old(inner.Get()), HeaderOp.Decode(input))
      ensures inner.OnlyThis()
    {
      hide DecodeHeader;
      var r := DecodeHeader(input);
      ok := r.Ok?;
      inner.Put(if ok then r.value else DEFAULT_HEADER);
    }

    method Encode() returns (encoded: bytes)
      ensures encoded == EncodeHeader(inner.Get(), env.omit)
    {
      encoded := WriteHeader(env, inner.Get());
    }

    method Hash() returns (hash: H256)
      requires Readable(inner.Get().dataHash)
      modifies inner.Home()
      ensures inner.OnlyThis()
      ensures var before := old(inner.Get());
        && inner.Get() == (if before.dataHash != [] then before else before.(dataHash := hash))
        && hash == if before.dataHash != [] then before.dataHash[..32]
           else env.hash(EncodeHeaderData(before.data, env.omit))
      ensures inner.Get() == Write(env, old(inner.Get()), HeaderOp.Hash)
      ensures hash == HashResult(env, old(inner.Get()))
    {
      hide EncodeHeaderData;
      if inner.Get().dataHash == [] {
        var data := WriteHeaderData(env, inner.Get().data);
        inner.Put(inner.Get().(dataHash := env.hash(data)));
      }
      hash := inner.Get().dataHash[..32];
    }

    method Clear()
      modifies `parents, inner.Home()
      ensures inner.Get() == Write(env, old(inner.Get()), HeaderOp.Clear) && inner.OnlyThis()
      ensures parents == WriteCache(old(parents), old(inner.Get()), HeaderOp.Clear)
      ensures inner.Get() == Header(HeaderData(0, [], [], [], [], 0, [], 0, 0, [], [], []), [], []) && parents == []
    {
      inner.Put(DEFAULT_HEADER);
      parents := [];
    }

    method ParentInfo() returns (result: seq<ParentView>)
      requires forall i | 0 <= i < |inner.Get().data.parentInfo| :: |inner.Get().data.parentInfo[i].blockHash| >= 32
      modifies `parents
      ensures result == ParentsResult(old(parents), inner.Get())
      ensures parents == WriteCache(old(parents), inner.Get(), HeaderOp.GetParentInfo)
      ensures result == parents && (old(parents) != [] ==> result == old(parents))
      ensures var stored := old(inner.Get().data.parentInfo);
        old(parents) == [] ==> |result| == |stored| && forall i | 0 <= i < |stored| ::
          result[i].blockNumber == stored[i].blockNumber && result[i].blockHash == stored[i].blockHash[..32]
    {
      if parents == [] {
        var stored := inner.Get().data.parentInfo;
        var i := 0;
        while i < |stored|
          invariant i <= |stored|
          invariant parents == ReadParents(stored[..i])
        {
          parents := parents + [ParentView(stored[i].blockNumber, stored[i].blockHash[..32])];
          i := i + 1;
        }
        assert stored[..i] == stored;
      }
      result := parents;
    }

    method SetParentInfo(list: seq<ParentView>)
      modifies `parents, inner.Home()
      ensures inner.Get() == Write(env, old(inner.Get()), HeaderOp.SetParentInfo(list)) && inner.OnlyThis()
      ensures parents == WriteCache(old(parents), old(inner.Get()), HeaderOp.SetParentInfo(list))
      ensures var stored := inner.Get().data.parentInfo;
        && inner.Get() == old(inner.Get()).(data := old(inner.Get().data).(parentInfo := stored))
        && |stored| == |list|
        && forall i | 0 <= i < |list| ::
             stored[i].blockNumber == list[i].blockNumber && stored[i].blockHash == list[i].blockHash
      ensures parents == []
    {
      parents := [];
      var h := inner.Get();
      inner.Put(h.(data := h.data.(parentInfo := [])));
      var i := 0;
      while i < |list|
        invariant i <= |list| && parents == []
        invariant inner.Get() == h.(data := h.data.(parentInfo := StoreParents(list[..i]))) && inner.OnlyThis()
      {
        var data := inner.Get().data;
        inner.Put(inner.Get().(data := data.(parentInfo :=
          data.parentInfo + [Records.ParentInfo(list[i].blockNumber, list[i].blockHash)])));
        assert StoreParents(list[..i + 1]) == StoreParents(list[..i])
            + [Records.ParentInfo(list[i].blockNumber, list[i].blockHash)];
        i := i + 1;
      }
      assert list[..i] == list;
    }

    method SetSealerList(list: seq<bytes>)
      modifies inner.Home()
      ensures inner.Get() == Write(env, old(inner.Get()), HeaderOp.SetSealerList(list)) && inner.OnlyThis()
      ensures inner.Get() == old(inner.Get()).(data := old(inner.Get().data).(sealerList := list))
    {
      var h := inner.Get();
      inner.Put(h.(data := h.data.(sealerList := [])));
      var i := 0;
      while i < |list|
        invariant i <= |list|
        invariant inner.Get() == h.(data := h.data.(sealerList := list[..i])) && inner.OnlyThis()
      {
        var data := inner.Get().data;
        inner.Put(inner.Get().(data := data.(sealerList := data.sealerList + [list[i]])));
        assert list[..i + 1] == list[..i] + [list[i]];
        i := i + 1;
      }
      assert list[..i] == list;
    }

    /** Appends: the list is not cleared first. */
    method SetSignatureList(list: seq<SignatureView>)
      modifies inner.Home()
      ensures inner.Get() == Write(env, old(inner.Get()), HeaderOp.SetSignatureList(list)) && inner.OnlyThis()
      ensures var stored, n := inner.Get().signatureList, |old(inner.Get().signatureList)|;
        && inner.Get() == old(inner.Get()).(signatureList := stored)
        && |stored| == n + |list| && stored[..n] == old(inner.Get().signatureList)
        && forall i | 0 <= i < |list| ::
             stored[n + i].sealerIndex == list[i].index && stored[n + i].signature == list[i].signature
    {
      var h := inner.Get();
      var i := 0;
      while i < |list|
        invariant i <= |list|
        invariant inner.Get() == h.(signatureList := h.signatureList + StoreSignatures(list[..i])) && inner.OnlyThis()
      {
        var s := Signature(list[i].index, list[i].signature);
        inner.Put(inner.Get().(signatureList := inner.Get().signatureList + [s]));
        assert h.signatureList + StoreSignatures(list[..i + 1]) == h.signatureList + StoreSignatures(list[..i]) + [s];
        i := i + 1;
      }
      assert list[..i] == list;
    }

    method SetVersion(version: int32)
      modifies inner.Home()
      ensures inner.Get() == Write(env, old(inner.Get()), HeaderOp.SetVersion(version)) && inner.OnlyThis()
      ensures inner.Get() == old(inner.Get()).(data := old(inner.Get().data).(version := version))
    {
      var h := inner.Get();
      inner.Put(h.(data := h.data.(version := version)));
    }

    method SetTxsRoot(root: H256)
      modifies inner.Home()
      ensures inner.Get() == Write(env, old(inner.Get()), HeaderOp.SetTxsRoot(root)) && inner.OnlyThis()
      ensures inner.Get() == old(inner.Get()).(data := old(inner.Get().data).(txsRoot := root))
    {
      var h := inner.Get();
      inner.Put(h.(data := h.data.(txsRoot := root)));
    }

    method SetReceiptsRoot(root: H256)
      modifies inner.Home()
      ensures inner.Get() == Write(env, old(inner.Get()), HeaderOp.SetReceiptsRoot(root)) && inner.OnlyThis()
      ensures inner.Get() == old(inner.Get()).(data := old(inner.Get().data).(receiptRoot := root))
    {
      var h := inner.Get();
      inner.Put(h.(data := h.data.(receiptRoot := root)));
    }

    method SetStateRoot(root: H256)
      modifies inner.Home()
      ensures inner.Get() == Write(env, old(inner.Get()), HeaderOp.SetStateRoot(root)) && inner.OnlyThis()
      ensures inner.Get() == old(inner.Get()).(data := old(inner.Get().data).(stateRoot := root))
    {
      var h := inner.Get();
      inner.Put(h.(data := h.data.(stateRoot := root)));
    }

    method SetNumber(number: int64)
      modifies inner.Home()
      ensures inner.Get() == Write(env, old(inner.Get()), HeaderOp.SetNumber(number)) && inner.OnlyThis()
      ensures inner.Get() == old(inner.Get()).(data := old(inner.Get().data).(blockNumber := number))
    {
      var h := inner.Get();
      inner.Put(h.(data := h.data.(blockNumber := number)));
    }

    method SetGasUsed(gas: u256)
      modifies inner.Home()
      ensures inner.Get() == Write(env, old(inner.Get()), HeaderOp.SetGasUsed(gas)) && inner.OnlyThis()
      ensures inner.Get() == old(inner.Get()).(data := old(inner.Get().data).(gasUsed := Print(gas)))
    {
      var h := inner.Get();
      inner.Put(h.(data := h.data.(gasUsed := Print(gas))));
    }

    method SetTimestamp(timestamp: int64)
      modifies inner.Home()
      ensures inner.Get() == Write(env, old(inner.Get()), HeaderOp.SetTimestamp(timestamp)) && inner.OnlyThis()
      ensures inner.Get() == old(inner.Get()).(data := old(inner.Get().data).(timestamp := timestamp))
    {
      var h := inner.Get();
      inner.Put(h.(data := h.data.(timestamp := timestamp)));
    }

    method SetSealer(sealer: int64)
      modifies inner.Home()
      ensures inner.Get() == Write(env, old(inner.Get()), HeaderOp.SetSealer(sealer)) && inner.OnlyThis()
      ensures inner.Get() == old(inner.Get()).(data := old(inner.Get().data).(sealer := sealer))
    {
      var h := inner.Get();
      inner.Put(h.(data := h.data.(sealer := sealer)));
    }

    method SetExtraData(extra: bytes)
      modifies inner.Home()
      ensures inner.Get() == Write(env, old(inner.Get()), HeaderOp.SetExtraData(extra)) && inner.OnlyThis()
      ensures inner.Get() == old(inner.Get()).(data := old(inner.Get().data).(extraData := extra))
    {
      var h := inner.Get();
      inner.Put(h.(data := h.data.(extraData := extra)));
    }

    method SetConsensusWeights(weights: seq<uint64>)
      modifies inner.Home()
      ensures inner.Get() == Write(env, old(inner.Get()), HeaderOp.SetConsensusWeights(weights)) && inner.OnlyThis()
      ensures var stored := inner.Get().data.consensusWeights;
        && inner.Get() == old(inner.Get()).(data := old(inner.Get().data).(consensusWeights := stored))
        && |stored| == |weights|
        && forall i | 0 <= i < |weights| :: (stored[i] - weights[i]) % 0x1_0000_0000_0000_0000 == 0
    {
      var h := inner.Get();
      inner.Put(h.(data := h.data.(consensusWeights := StoreWeights(weights))));
    }

    method SetInner(header: Header)
      modifies inner.Home()
      ensures inner.Get() == Write(env, old(inner.Get()), HeaderOp.SetInner(header)) && inner.OnlyThis()
      ensures inner.Get() == header
    {
      inner.Put(header);
    }

    /** Nothing stored reads as zero; None when the cast of the stored text throws. */
    method GasUsed() returns (gas: Option<u256>)
      ensures gas == GasUsedResult(inner.Get())
      ensures inner.Get().data.gasUsed == [] ==> gas == Some(0)
      ensures forall n: u256 :: inner.Get().data.gasUsed == Print(n) ==> gas == Some(n)
    {
      forall n: u256
        ensures Print(n) != [] && Parse(Print(n)) == Some(n)
      {
        ParseOfPrint(n);
      }
      if inner.Get().data.gasUsed != [] {
        return Parse(inner.Get().data.gasUsed);
      }
      gas := Some(0);
    }

    method TxsRoot() returns (root: H256)
      requires Readable(inner.Get().data.txsRoot)
      ensures root == AsHash(inner.Get().data.txsRoot)
      ensures inner.Get().data.txsRoot == [] ==> forall i | 0 <= i < 32 :: root[i] == 0
      ensures inner.Get().data.txsRoot != [] ==> root == inner.Get().data.txsRoot[..32]
    {
      var stored := inner.Get().data.txsRoot;
      root := if stored != [] then stored[..32] else ZERO_HASH;
    }

    method StateRoot() returns (root: H256)
      requires Readable(inner.Get().data.stateRoot)
      ensures root == AsHash(inner.Get().data.stateRoot)
      ensures inner.Get().data.stateRoot == [] ==> forall i | 0 <= i < 32 :: root[i] == 0
      ensures inner.Get().data.stateRoot != [] ==> root == inner.Get().data.stateRoot[..32]
    {
      var stored := inner.Get().data.stateRoot;
      root := if stored != [] then stored[..32] else ZERO_HASH;
    }

    method ReceiptsRoot() returns (root: H256)
      requires Readable(inner.Get().data.receiptRoot)
      ensures root == AsHash(inner.Get().data.receiptRoot)
      ensures inner.Get().data.receiptRoot == [] ==> forall i | 0 <= i < 32 :: root[i] == 0
      ensures inner.Get().data.receiptRoot != [] ==> root == inner.Get().data.receiptRoot[..32]
    {
      var stored := inner.Get().data.receiptRoot;
      root := if stored != [] then stored[..32] else ZERO_HASH;
    }
  }
}

/** Calls through several wrappers of the same header, in any order. */
module HeaderInterleaving {
  import opened Base
  import opened Environment
  import opened Records
  import opened RecordCodec
  import opened HeaderState
  import opened BlockHeaderImplementation

  /** The setters of single fields. */
  predicate SetsField(op: HeaderOp) {
    op.SetVersion? || op.SetTxsRoot? || op.SetReceiptsRoot? || op.SetStateRoot? || op.SetNumber? || op.SetGasUsed?
    || op.SetTimestamp? || op.SetSealer? || op.SetExtraData? || op.SetConsensusWeights?
  }

  method SetField(view: BlockHeaderImpl, op: HeaderOp)
    requires SetsField(op)
    modifies view.inner.Home()
    ensures view.inner.Get() == Write(view.env, old(view.inner.Get()), op) && view.inner.OnlyThis()
  {
    hide Write;
    match op
    case SetVersion(version) => view.SetVersion(version);
    case SetTxsRoot(root) => view.SetTxsRoot(root);
    case SetReceiptsRoot(root) => view.SetReceiptsRoot(root);
    case SetStateRoot(root) => view.SetStateRoot(root);
    case SetNumber(number) => view.SetNumber(number);
    case SetGasUsed(gas) => view.SetGasUsed(gas);
    case SetTimestamp(timestamp) => view.SetTimestamp(timestamp);
    case SetSealer(sealer) => view.SetSealer(sealer);
    case SetExtraData(extra) => view.SetExtraData(extra);
    case SetConsensusWeights(weights) => view.SetConsensusWeights(weights);
  }

  /** Calls that only read, or fill a memo or a cache. */
  predicate Reads(op: HeaderOp) {
    op.Hash? || op.Encode? || op.GetParentInfo?
  }

  method Read(view: BlockHeaderImpl, op: HeaderOp)
    requires Reads(op) && Permitted(view.inner.Get(), op)
    modifies view`parents, view.inner.Home()
    ensures view.inner.Get() == Write(view.env, old(view.inner.Get()), op) && view.inner.OnlyThis()
    ensures view.parents == WriteCache(old(view.parents), old(view.inner.Get()), op)
  {
    hide Write, DecodeHeader, EncodeHeader, ParentsResult, HashResult;
    ReadingChangesNothing(view.env, view.inner.Get());
    match op
    case Hash => var _ := view.Hash();
    case Encode => var _ := view.Encode();
    case GetParentInfo => var _ := view.ParentInfo();
  }

  /** The setters of lists of records or vectors. */
  predicate SetsList(op: HeaderOp) {
    op.SetParentInfo? || op.SetSealerList? || op.SetSignatureList?
  }

  method SetList(view: BlockHeaderImpl, op: HeaderOp)
    requires SetsList(op)
    modifies view`parents, view.inner.Home()
    ensures view.inner.Get() == Write(view.env, old(view.inner.Get()), op) && view.inner.OnlyThis()
    ensures view.parents == WriteCache(old(view.parents), old(view.inner.Get()), op)
  {
    hide Write, DecodeHeader, EncodeHeader, ParentsResult, HashResult;
    match op
    case SetParentInfo(parents) => view.SetParentInfo(parents);
    case SetSealerList(sealers) => view.SetSealerList(sealers);
    case SetSignatureList(signatures) => view.SetSignatureList(signatures);
  }

  /** One call through one view. */
  method Perform(view: BlockHeaderImpl, op: HeaderOp)
    requires Permitted(view.inner.Get(), op)
    modifies view`parents, view.inner.Home()
    ensures view.inner.Get() == Write(view.env, old(view.inner.Get()), op) && view.inner.OnlyThis()
    ensures view.parents == WriteCache(old(view.parents), old(view.inner.Get()), op)
  {
    hide Write, DecodeHeader, EncodeHeader, ParentsResult, HashResult;
    if SetsField(op) {
      SetField(view, op);
    } else if Reads(op) {
      Read(view, op);
    } else if SetsList(op) {
      SetList(view, op);
    } else {
      match op
      case SetInner(inner) => view.SetInner(inner);
      case Decode(input) => var _ := view.Decode(input);
      case Clear => view.Clear();
    }
  }

  lemma ReadingChangesNothing(env: Env, h: Header)
    ensures Write(env, h, HeaderOp.Encode) == h && Write(env, h, GetParentInfo) == h
  {
  }

  ghost predicate AllPermitted(env: Env, s: Views, calls: seq<Call>)
    decreases |calls|
  {
    calls == []
    || (Possible(|s.caches|, calls[0]) && Permitted(s.rec, calls[0].op)
        && AllPermitted(env, Step(env, s, calls[0]), calls[1..]))
  }

  lemma {:induction false} PermittedIsPossible(env: Env, s: Views, calls: seq<Call>)
    requires AllPermitted(env, s, calls)
    ensures AllPossible(|s.caches|, calls)
    decreases |calls|
  {
    hide Write, WriteCache, Permitted;
    if calls != [] {
      PermittedIsPossible(env, Step(env, s, calls[0]), calls[1..]);
      assert forall i | 0 < i < |calls| :: calls[i] == calls[1..][i - 1];
    }
  }

  /** Different objects, all wrapping the same record. */
  ghost predicate ViewsOfOne(views: seq<BlockHeaderImpl>) {
    && |views| > 0
    && (forall i, j | 0 <= i < j < |views| :: views[i] != views[j])
    && (forall i | 0 <= i < |views| :: views[i].inner == views[0].inner && views[i].env == views[0].env)
  }

  ghost predicate Shows(views: seq<BlockHeaderImpl>, s: Views)
    requires |views| > 0
    reads views, views[0].inner.Home()
  {
    && views[0].inner.Get() == s.rec
    && |s.caches| == |views|
    && forall i | 0 <= i < |views| :: views[i].parents == s.caches[i]
  }

  /** On the heap, too, any interleaving through any number of views has the effect the state
      machine gives it, so what is proved of its runs holds of aliased wrappers. */
  method Interleave(views: seq<BlockHeaderImpl>, calls: seq<Call>, ghost s: Views)
    requires ViewsOfOne(views) && Shows(views, s)
    requires AllPermitted(views[0].env, s, calls)
    modifies views, views[0].inner.Home()
    ensures AllPossible(|s.caches|, calls)
    ensures Shows(views, Run(views[0].env, s, calls)) && views[0].inner.OnlyThis()
  {
    hide Write, WriteCache, Permitted;
    ghost var env := views[0].env;
    PermittedIsPossible(env, s, calls);
    ghost var now := s;
    var i := 0;
    assert calls[0..] == calls;
    while i < |calls|
      invariant i <= |calls| && Shows(views, now) && |now.caches| == |s.caches| && views[0].inner.OnlyThis()
      invariant AllPermitted(env, now, calls[i..])
      invariant AllPossible(|s.caches|, calls[i..]) && Run(env, now, calls[i..]) == Run(env, s, calls)
    {
      assert calls[i..][0] == calls[i] && calls[i..][1..] == calls[i + 1..];
      var view := views[calls[i].view];
      Perform(view, calls[i].op);
      now := Step(env, now, calls[i]);
      i := i + 1;
    }
  }
}
