/** Shared vocabulary of the runtime model: status codes, bytes, operand values
    and the value-type checks every control transfer performs. */
module Core {

  datatype Status =
    | Ok
    | InvalidArgument
    | OutOfMemory
    | NoModule
    | Stream
    | Unsupported
    | Unimplemented
    | CallDepthExceeded
    | Trap

  type Error = s: Status | s != Ok witness Trap

  datatype Option<+T> = None | Some(value: T) {
    predicate IsFailure() {
      None?
    }

    function PropagateFailure<U>(): Option<U>
      requires None?
    {
      None
    }

    function Extract(): T
      requires Some?
    {
      value
    }
  }

  datatype Result<+T> = Success(value: T) | Failure(error: Error) {
    predicate IsFailure() {
      Failure?
    }

    function PropagateFailure<U>(): Result<U>
      requires Failure?
    {
      Failure(error)
    }

    function Extract(): T
      requires Success?
    {
      value
    }
  }

  type byte = x: int | 0 <= x < 256

  const TWO_32: int := 0x1_0000_0000
  const TWO_63: int := 0x8000_0000_0000_0000
  const TWO_64: int := 0x1_0000_0000_0000_0000

  /** The C cast `(uint32_t)x`. */
  function ToU32(x: int): (r: nat)
    ensures r < TWO_32
  {
    x % TWO_32
  }

  /** The number a little-endian byte string stands for. */
  function LittleEndian(bs: seq<byte>): (n: nat)
    decreases |bs|
  {
    if bs == [] then 0 else bs[0] + 256 * LittleEndian(bs[1..])
  }

  /** Operand values; every payload is kept as its bit pattern. */
  datatype Value =
    | I32(bits: nat)
    | I64(bits: nat)
    | F32(bits: nat)
    | F64(bits: nat)
    | V128(bits: nat)
    | Ref(ptr: nat)

  const VALTYPE_I32: byte := 0x7F
  const VALTYPE_I64: byte := 0x7E
  const VALTYPE_F32: byte := 0x7D
  const VALTYPE_F64: byte := 0x7C
  const VALTYPE_V128: byte := 0x7B
  const VALTYPE_FUNCREF: byte := 0x70
  const VALTYPE_EXTERNREF: byte := 0x6F

  /** Does `v` have the kind the value type asks for? Codes above 255 never match. */
  predicate MatchesType(v: Value, valtype: nat) {
    match v
    case I32(_) => valtype == VALTYPE_I32
    case I64(_) => valtype == VALTYPE_I64
    case F32(_) => valtype == VALTYPE_F32
    case F64(_) => valtype == VALTYPE_F64
    case V128(_) => valtype == VALTYPE_V128
    case Ref(_) => valtype == VALTYPE_FUNCREF || valtype == VALTYPE_EXTERNREF
  }

  /** The zero value a local of this type starts with. */
  function ZeroValue(valtype: nat): Result<Value> {
    if valtype == VALTYPE_I32 then Success(I32(0))
    else if valtype == VALTYPE_I64 then Success(I64(0))
    else if valtype == VALTYPE_F32 then Success(F32(0))
    else if valtype == VALTYPE_F64 then Success(F64(0))
    else if valtype == VALTYPE_V128 then Success(V128(0))
    else if valtype == VALTYPE_FUNCREF || valtype == VALTYPE_EXTERNREF then Success(Ref(0))
    else Failure(Unsupported)
  }

  /** Branch conditions: a float is false exactly at positive and negative zero. */
  predicate Truthy(v: Value) {
    match v
    case I32(b) => b != 0
    case I64(b) => b != 0
    case F32(b) => b != 0 && b != 0x8000_0000
    case F64(b) => b != 0 && b != TWO_63
    case V128(_) => false
    case Ref(p) => p != 0
  }

  /** The top of `stack` spells the value types `types`, last type on top. */
  predicate TopMatches(stack: seq<Value>, types: seq<nat>) {
    |types| <= |stack| &&
    forall i :: 0 <= i < |types| ==> MatchesType(stack[|stack| - |types| + i], types[i])
  }
}
