/** The growable byte buffer that output streams write into. */
module BufferWriter {
  import opened Base
  import opened TarsCodec

  class BufferWriterByteVector {
    var buffer: bytes      // the vector
    var attached: bool     // whether the raw pointer is the vector's data; otherwise it is null
    var len: nat           // bytes written
    var bufLen: nat        // capacity the raw pointer is good for
    const growth: nat -> nat  // how much the stream's reserve macro asks for

    ghost predicate Valid()
      reads this
    {
      && len <= bufLen
      && (if attached then bufLen == |buffer| else bufLen == 0)
    }

    ghost function Contents(): bytes
      reads this
      requires Valid()
    {
      buffer[..len]
    }

    constructor (growth: nat -> nat)
      ensures Valid() && Contents() == [] && this.growth == growth
      ensures buffer == []
    {
      this.growth := growth;
      buffer, attached, len, bufLen := [], false, 0, 0;
    }

    method Reset()
      requires Valid()
      modifies `len
      ensures Valid() && Contents() == []
    {
      len := 0;
    }

    method Resize(n: nat)
      modifies `buffer
      ensures |buffer| == n
      ensures forall i | 0 <= i < n && i < old(|buffer|) :: buffer[i] == old(buffer[i])
    {
      buffer := if n <= |buffer| then buffer[..n] else buffer + seq(n - |buffer|, i => 0);
    }

    /** Makes room for `need` bytes; the vector is resized to at least that and keeps its prefix. */
    method Reserve(need: nat)
      requires Valid()
      modifies this
      ensures Valid() && need <= bufLen
      ensures Contents() == old(Contents()) && len == old(len)
    {
      if bufLen < need {
        var capacity := if growth(need) < need then need else growth(need);
        Resize(capacity);
        attached, bufLen := true, capacity;
        assert buffer[..len] == old(buffer[..len]);
      }
    }

    method WriteBuf(chunk: bytes)
      requires Valid()
      modifies this
      ensures Valid() && Contents() == old(Contents()) + chunk
    {
      Reserve(len + |chunk|);
      buffer := buffer[..len] + chunk + buffer[len + |chunk|..];
      len := len + |chunk|;
    }

    /** The vector cut to the bytes written. The capacity is not lowered with it, so the writer is
        good for further writes exactly if it was full. */
    method GetByteBuffer() returns (out: bytes)
      requires Valid()
      modifies `buffer
      ensures out == buffer == old(Contents())
      ensures Valid() <==> len == bufLen
    {
      Resize(len);
      out := buffer;
    }

    /** Hands the bytes out and takes the caller's vector instead. The capacity equals the size of
        the vector again only if the caller's vector was empty. */
    method SwapVector(v: bytes) returns (out: bytes)
      requires Valid()
      modifies this
      ensures Valid() && Contents() == [] && out == old(Contents()) && buffer == v
      ensures bufLen == |buffer| <==> v == []
    {
      Resize(len);
      out, buffer := buffer, v;
      attached, bufLen, len := false, 0, 0;
    }

    method SwapWriter(other: BufferWriterByteVector)
      requires Valid() && other.Valid()
      modifies this, other
      ensures Valid() && Contents() == old(other.Contents())
      ensures other.Valid() && other.Contents() == old(Contents())
      ensures len == old(other.len) && bufLen == old(other.bufLen) && buffer == old(other.buffer)
      ensures other.len == old(len) && other.bufLen == old(bufLen) && other.buffer == old(buffer)
    {
      var b, a, l, n := buffer, attached, len, bufLen;
      buffer, attached, len, bufLen := other.buffer, other.attached, other.len, other.bufLen;
      other.buffer, other.attached, other.len, other.bufLen := b, a, l, n;
    }
  }

  /** writeTo of a record into a stream: one write after the other, field by field. */
  method WriteTo(output: BufferWriterByteVector, ty: Ty, v: Val, omit: Omit)
    requires output.Valid()
    requires ty.Struct? && HasType(ty, v)
    modifies output
    ensures output.Valid() && output.Contents() == old(output.Contents()) + Encode(ty, v, omit)
  {
    var fs := ty.fields;
    var i := 0;
    while i < |fs|
      invariant i <= |fs| && output.Valid()
      invariant output.Contents() + WriteFields(fs, v.fs, i, omit, []) == old(output.Contents()) + Encode(ty, v, omit)
    {
      ghost var before := output.Contents();
      var field := WriteField(fs[i], v.fs[i], omit, []);
      output.WriteBuf(field);
      assert before + (field + WriteFields(fs, v.fs, i + 1, omit, []))
          == before + field + WriteFields(fs, v.fs, i + 1, omit, []);
      i := i + 1;
    }
    assert output.Contents() + [] == output.Contents();
  }

  /** What every encode does: a fresh stream, writeTo, and the stream's buffer. */
  method Serialize(ty: Ty, v: Val, omit: Omit, growth: nat -> nat) returns (out: bytes)
    requires ty.Struct? && HasType(ty, v)
    ensures out == Encode(ty, v, omit)
  {
    var output := new BufferWriterByteVector(growth);
    WriteTo(output, ty, v, omit);
    assert [] + Encode(ty, v, omit) == Encode(ty, v, omit);
    out := output.GetByteBuffer();
  }
}

/** The streams of the three kinds of record and of the parts of them that are hashed. */
module RecordStreams {
  import opened Base
  import opened Environment
  import opened Records
  import opened RecordCodec
  import BufferWriter

  method WriteTransactionData(env: Env, d: TransactionData) returns (out: bytes)
    ensures out == EncodeTransactionData(d, env.omit)
  {
    out := BufferWriter.Serialize(TRANSACTION_DATA, d.ToVal(), env.omit, env.growth);
  }

  method WriteTransaction(env: Env, t: Transaction) returns (out: bytes)
    ensures out == EncodeTransaction(t, env.omit)
  {
    out := BufferWriter.Serialize(TRANSACTION, t.ToVal(), env.omit, env.growth);
  }

  method WriteReceiptData(env: Env, d: ReceiptData) returns (out: bytes)
    ensures out == EncodeReceiptData(d, env.omit)
  {
    out := BufferWriter.Serialize(RECEIPT_DATA, d.ToVal(), env.omit, env.growth);
  }

  method WriteReceipt(env: Env, r: Receipt) returns (out: bytes)
    ensures out == EncodeReceipt(r, env.omit)
  {
    out := BufferWriter.Serialize(RECEIPT, r.ToVal(), env.omit, env.growth);
  }

  method WriteHeaderData(env: Env, d: HeaderData) returns (out: bytes)
    ensures out == EncodeHeaderData(d, env.omit)
  {
    out := BufferWriter.Serialize(HEADER_DATA, d.ToVal(), env.omit, env.growth);
  }

  method WriteHeader(env: Env, h: Header) returns (out: bytes)
    ensures out == EncodeHeader(h, env.omit)
  {
    out := BufferWriter.Serialize(HEADER, h.ToVal(), env.omit, env.growth);
  }

  method WriteBlock(env: Env, b: Block) returns (out: bytes)
    ensures out == EncodeBlock(b, env.omit)
  {
    out := BufferWriter.Serialize(BLOCK, b.ToVal(), env.omit, env.growth);
  }
}
