/** The part of Go's reflect package that the parsing code relies on, as
    plain descriptors: the kind of a value, the data it holds, whether its
    type (or a pointer to it) has an `UnmarshalText` method, and the foreign
    operations (float parsing, `UnmarshalText` bodies) the model cannot see. */
module Values {
  import opened Wrappers
  import Strconv

  /** reflect.Kind, every constant in declaration order. */
  datatype Kind =
    | Invalid | Bool
    | Int | Int8 | Int16 | Int32 | Int64
    | Uint | Uint8 | Uint16 | Uint32 | Uint64 | Uintptr
    | Float32 | Float64 | Complex64 | Complex128
    | Array | Chan | Func | Interface | Map | Pointer | Slice | String | Struct
    | UnsafePointer

  predicate IsSigned(k: Kind) {
    k.Int? || k.Int8? || k.Int16? || k.Int32? || k.Int64?
  }

  /** The unsigned kinds the parsing code handles; Uintptr is not among them. */
  predicate IsUnsigned(k: Kind) {
    k.Uint? || k.Uint8? || k.Uint16? || k.Uint32? || k.Uint64?
  }

  predicate IsFloat(k: Kind) {
    k.Float32? || k.Float64?
  }

  /** Storage width in bits of an integer kind; `int` and `uint` are taken
      to be 64 bits wide, as on the 64-bit platforms the tests are written for. */
  function Width(k: Kind): (w: nat)
    requires IsSigned(k) || IsUnsigned(k)
    ensures w in {8, 16, 32, 64}
  {
    match k
    case Int8 | Uint8 => 8
    case Int16 | Uint16 => 16
    case Int32 | Uint32 => 32
    case _ => 64
  }

  /** Whether `UnmarshalText` is in the method set of a value's own type
      (`own`) and in the method set of a pointer to that type (`viaAddr`). */
  datatype TextCaps = TextCaps(own: bool, viaAddr: bool)

  const NoText := TextCaps(false, false)

  /** What a value holds. Floats and the contents of any kind the parsers do
      not write (structs, maps, slices, ...) are opaque. */
  datatype Data =
    | IntD(kind: Kind, i: int)
    | UintD(kind: Kind, u: nat)
    | FloatD(kind: Kind, f: real)
    | BoolD(b: bool)
    | StringD(s: string)
    | PtrD(pointee: Option<Value>)
    | OtherD(kind: Kind, content: nat)

  datatype Value = Value(data: Data, caps: TextCaps)

  /** reflect.Value.Kind */
  function KindOf(v: Value): Kind {
    match v.data
    case IntD(k, _) => k
    case UintD(k, _) => k
    case FloatD(k, _) => k
    case BoolD(_) => Bool
    case StringD(_) => String
    case PtrD(_) => Pointer
    case OtherD(k, _) => k
  }

  /** What reflect.Value.Elem yields for a pointer: the pointee, or the zero
      Value (of kind Invalid) for a nil pointer. */
  function Elem(v: Value): Option<Value>
    requires KindOf(v) == Pointer
  {
    match v.data
    case PtrD(p) => p
    case _ => None
  }

  /** Go's conversion of an int64 to a signed integer type of `bits` bits
      (as reflect.Value.SetInt does): two's-complement truncation. */
  function WrapSigned(i: int, bits: nat): (r: int)
    requires bits >= 1
    ensures -(Strconv.Pow2(bits - 1) as int) <= r < Strconv.Pow2(bits - 1)
    ensures -(Strconv.Pow2(bits - 1) as int) <= i < Strconv.Pow2(bits - 1) ==> r == i
    ensures (i - r) % Strconv.Pow2(bits) == 0
  {
    var half := Strconv.Pow2(bits - 1);
    var full := Strconv.Pow2(bits);
    assert full == 2 * half;
    ModRange(i + half, full);
    assert i - ((i + half) % full - half) == (i + half) - (i + half) % full;
    (i + half) % full - half
  }

  /** Go's conversion of a uint64 to an unsigned type of `bits` bits
      (as reflect.Value.SetUint does): the value modulo 2^bits. */
  function WrapUnsigned(u: nat, bits: nat): (r: nat)
    ensures r < Strconv.Pow2(bits)
    ensures u < Strconv.Pow2(bits) ==> r == u
    ensures (u - r) % Strconv.Pow2(bits) == 0
  {
    var full := Strconv.Pow2(bits);
    ModRange(u, full);
    u % full
  }

  lemma ModRange(x: int, m: int)
    requires m > 0
    ensures 0 <= x % m < m
    ensures 0 <= x < m ==> x % m == x
    ensures (x - x % m) % m == 0
  {
    var q := x / m;
    assert x - x % m == q * m;
    MultipleMod(q, m);
  }

  lemma MultipleMod(q: int, m: int)
    requires m > 0
    ensures (q * m) % m == 0
  {
    var r := (q * m) % m;
    var d := (q * m) / m;
    assert (q - d) * m == r by {
      assert q * m == d * m + r;
    }
    if q - d != 0 {
      AtLeastOnce(q - d, m);
    }
  }

  /** A nonzero multiple of m is at least m away from zero. */
  lemma AtLeastOnce(k: int, m: int)
    requires m > 0 && k != 0
    ensures k * m >= m || k * m <= -m
    decreases if k > 0 then k else -k
  {
    if k > 0 {
      assert k * m == (k - 1) * m + m;
      if k > 1 {
        AtLeastOnce(k - 1, m);
      }
    } else {
      assert k * m == (k + 1) * m - m;
      if k < -1 {
        AtLeastOnce(k + 1, m);
      }
    }
  }


  /** The result of a foreign `UnmarshalText` body: the receiver's new value
      and the error it returned, if any. */
  datatype TextResult = TextResult(value: Value, err: Option<string>)

  /** Code the model cannot see, taken as parameters: strconv.ParseFloat,
      the rounding of a float64 to float32 that reflect.Value.SetFloat does
      for a float32 target, and the `UnmarshalText` methods of the
      destination types (time.Time, null.Bool, ...). */
  datatype Foreign = Foreign(
    parseFloat: (string, nat) -> Result<real, Strconv.NumError>,
    toFloat32: real -> real,
    unmarshalText: (Value, string) -> TextResult)

  /** Every way a parse or a read can fail. Go panics and returned errors
      alike become one of these. */
  datatype Failure =
    | NumErr(err: Strconv.NumError)   // strconv rejected the text
    | TextErr(msg: string)            // UnmarshalText returned this error
    | MethodUnavailable               // "method UnmarshalText not available"
    | UnmarshalFailed                 // "Error while calling UnmarshalText"
    | UnsupportedType                 // "Target type must be of kind string, int, uint, float or bool"
    | NotSettable                     // reflect: Set on an unaddressable or unexported value
    | NotAssignable                   // reflect: Set with a value of another type
    | UnexportedCall                  // reflect: Call of a method of an unexported field
    | NoPtr                           // "Target must be a pointer"
    | NilTarget                       // runtime error: Kind of the nil Type of a nil interface
    | NotAStruct                      // reflect: NumField of a non-struct type
    | NilStruct                       // reflect: Field of the zero Value behind a nil pointer
    | ZeroValue                       // reflect: MethodByName of the zero Value behind a nil pointer
    | IndexOutOfRange                 // first value of an empty value list

  /** The value a parse leaves in its target, and the failure it reports. */
  datatype Outcome = Outcome(value: Value, err: Option<Failure>)

  /** A reflect.Value that code writes through: its current value, whether it
      is addressable, and whether it was reached through exported fields only.
      It is settable when both hold. */
  class Handle {
    var value: Value
    const canAddr: bool
    const exported: bool

    constructor (value: Value, canAddr: bool, exported: bool)
      ensures this.value == value && this.canAddr == canAddr && this.exported == exported
    {
      this.value := value;
      this.canAddr := canAddr;
      this.exported := exported;
    }

    predicate CanSet()
    {
      canAddr && exported
    }
  }
}
