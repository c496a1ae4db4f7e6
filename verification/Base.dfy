/** Machine types, byte strings and result types shared by every module. */
module Base {
  type byte = x: int | 0 <= x < 0x100
  type bytes = seq<byte>

  type int32 = x: int | -0x8000_0000 <= x < 0x8000_0000
  type int64 = x: int | -0x8000_0000_0000_0000 <= x < 0x8000_0000_0000_0000
  type uint32 = x: int | 0 <= x < 0x1_0000_0000
  type uint64 = x: int | 0 <= x < 0x1_0000_0000_0000_0000

  const U256_LIMIT: nat := 0x1_0000000000000000_0000000000000000_0000000000000000_0000000000000000

  type u256 = x: nat | x < U256_LIMIT

  /** A 32-byte hash value. */
  type H256 = b: bytes | |b| == 32 witness seq(32, i => 0)

  const ZERO_HASH: H256 :=
    [0, 0, 0, 0, 0, 0, 0, 0, 0, 0, 0, 0, 0, 0, 0, 0, 0, 0, 0, 0, 0, 0, 0, 0, 0, 0, 0, 0, 0, 0, 0, 0]

  /** A stored hash as the code reads it: nothing stored reads as zero. Fewer than 32 stored bytes are
      not readable. */
  function AsHash(b: bytes): H256 {
    if |b| >= 32 then b[..32] else ZERO_HASH
  }

  predicate Readable(b: bytes) {
    b == [] || |b| >= 32
  }

  datatype Option<+T> = None | Some(value: T)

  /** Why a Tars input stream refuses its input. */
  datatype DecodeError = Truncated | WrongType | MissingField | BadSize

  datatype Result<+T> = Ok(value: T) | Err(error: DecodeError) {
    predicate IsFailure() {
      Err?
    }

    function PropagateFailure<U>(): Result<U>
      requires Err?
    {
      Err(error)
    }

    function Extract(): T
      requires Ok?
    {
      value
    }
  }

  /** The C++ conversion of a size to a signed 32-bit integer. */
  function WrapInt32(n: int): (r: int32)
    ensures (r - n) % 0x1_0000_0000 == 0
  {
    var m := n % 0x1_0000_0000;
    if m < 0x8000_0000 then m else m - 0x1_0000_0000
  }

  /** The C++ conversion of a signed or unsigned value to an unsigned 32-bit integer. */
  function WrapUInt32(n: int): (r: uint32)
    ensures (r - n) % 0x1_0000_0000 == 0
  {
    n % 0x1_0000_0000
  }

  /** The C++ conversion of an unsigned 64-bit value to a signed one. */
  function AsInt64(u: uint64): (r: int64)
    ensures (r - u) % 0x1_0000_0000_0000_0000 == 0
  {
    if u < 0x8000_0000_0000_0000 then u else u - 0x1_0000_0000_0000_0000
  }

  /** The C++ conversion of a signed 64-bit value to an unsigned one. */
  function AsUInt64(n: int64): (r: uint64)
    ensures (r - n) % 0x1_0000_0000_0000_0000 == 0
  {
    if n >= 0 then n else n + 0x1_0000_0000_0000_0000
  }
}
