/** The scalar parser registry of internal/parser.go: a table from a value's
    kind to the parser for it, each parser converting text with strconv at
    the width of its kind and then storing the result with reflect's Set. */
module ScalarParsers {
  import opened Wrappers
  import opened Values
  import Strconv

  /** The registered parserFuncs: the kind each one stores, and the bitSize it
      hands to strconv (0 means the platform's int size). */
  datatype Parser =
    | SignedParser(kind: Kind, bitSize: nat)
    | UnsignedParser(kind: Kind, bitSize: nat)
    | FloatParser(kind: Kind, bitSize: nat)
    | BoolParser
    | StringParser

  /** The kind of the value a parser passes to Set. */
  function TargetKind(p: Parser): Kind {
    match p
    case SignedParser(k, _) => k
    case UnsignedParser(k, _) => k
    case FloatParser(k, _) => k
    case BoolParser => Bool
    case StringParser => String
  }

  /** The entry of registeredParsers for a kind that has one. */
  function ParserOf(k: Kind): Parser
    requires Parsable(k)
  {
    match k
    case Int => SignedParser(Int, 0)
    case Int8 => SignedParser(Int8, 8)
    case Int16 => SignedParser(Int16, 16)
    case Int32 => SignedParser(Int32, 32)
    case Int64 => SignedParser(Int64, 64)
    case Uint => UnsignedParser(Uint, 0)
    case Uint8 => UnsignedParser(Uint8, 8)
    case Uint16 => UnsignedParser(Uint16, 16)
    case Uint32 => UnsignedParser(Uint32, 32)
    case Uint64 => UnsignedParser(Uint64, 64)
    case Float32 => FloatParser(Float32, 32)
    case Float64 => FloatParser(Float64, 64)
    case Bool => BoolParser
    case String => StringParser
  }

  /** The fourteen kinds that have a parser. */
  predicate Parsable(k: Kind) {
    IsSigned(k) || IsUnsigned(k) || IsFloat(k) || k == Bool || k == String
  }

  /** registeredParsers */
  const RegisteredParsers: map<Kind, Parser> := map k: Kind | Parsable(k) :: ParserOf(k)

  /** SelectParser: a parser exists exactly for the fourteen parsable kinds;
      the one found stores values of the kind asked for, and integer parsers
      check the range of that kind's width. */
  function SelectParser(v: Value): (r: Option<Parser>)
    ensures r.Some? <==> Parsable(KindOf(v))
    ensures r.Some? ==> TargetKind(r.value) == KindOf(v)
    ensures r.Some? && IsSigned(KindOf(v)) ==>
              r.value.SignedParser? && StrconvWidth(r.value.bitSize) == Width(KindOf(v))
    ensures r.Some? && IsUnsigned(KindOf(v)) ==>
              r.value.UnsignedParser? && StrconvWidth(r.value.bitSize) == Width(KindOf(v))
  {
    var k := KindOf(v);
    if k in RegisteredParsers then Some(RegisteredParsers[k]) else None
  }

  /** The width strconv uses for a bitSize argument. */
  function StrconvWidth(bitSize: nat): nat {
    if bitSize == 0 then Strconv.IntSize else bitSize
  }

  /** The conversion half of a parserFunc: the strconv call and the
      conversion to the parser's kind, before anything is stored. */
  function Convert(p: Parser, s: string, ext: Foreign): (r: Result<Data, Strconv.NumError>)
    ensures r.Ok? ==> KindOf(Value(r.value, NoText)) == TargetKind(p)
    ensures p.StringParser? ==> r == Ok(StringD(s))
    ensures p.BoolParser? ==> (r.Ok? <==> s in Strconv.TrueStrings || s in Strconv.FalseStrings)
  {
    match p
    case SignedParser(k, b) =>
      (match Strconv.ParseInt(s, b)
       case Ok(i) => Ok(IntD(k, i))
       case Err(e) => Err(e))
    case UnsignedParser(k, b) =>
      (match Strconv.ParseUint(s, b)
       case Ok(u) => Ok(UintD(k, u))
       case Err(e) => Err(e))
    case FloatParser(k, b) =>
      (match ext.parseFloat(s, b)
       case Ok(f) => Ok(FloatD(k, f))
       case Err(e) => Err(e))
    case BoolParser =>
      (match Strconv.ParseBool(s)
       case Ok(b) => Ok(BoolD(b))
       case Err(e) => Err(e))
    case StringParser => Ok(StringD(s))
  }

  /** What a parserFunc does to a target holding `v`: a conversion error is
      returned before Set is reached; otherwise Set panics on a target that
      is not settable or not of the parser's kind, and else stores the
      converted value, keeping the target's type. */
  function ParseOutcome(p: Parser, v: Value, canSet: bool, s: string, ext: Foreign): Result<Value, Failure> {
    match Convert(p, s, ext)
    case Err(e) => Err(NumErr(e))
    case Ok(d) =>
      if !canSet then Err(NotSettable)
      else if KindOf(v) != TargetKind(p) then Err(NotAssignable)
      else Ok(Value(d, v.caps))
  }

  /** Parser.Parse: runs the parser on the handle's value in place. On any
      error the handle keeps its old value. */
  method Parse(p: Parser, h: Handle, s: string, ext: Foreign) returns (err: Option<Failure>)
    modifies h
    ensures match ParseOutcome(p, old(h.value), h.CanSet(), s, ext)
            case Ok(v) => err == None && h.value == v
            case Err(f) => err == Some(f) && h.value == old(h.value)
  {
    match Convert(p, s, ext)
    case Err(e) =>
      return Some(NumErr(e));
    case Ok(d) =>
      if !h.CanSet() {
        return Some(NotSettable);
      }
      if KindOf(h.value) != TargetKind(p) {
        return Some(NotAssignable);
      }
      h.value := Value(d, h.value.caps);
      return None;
  }

  // ---------------------------------------------------------------------
  // Properties of the registered parsers

  /** The signed parser for a kind of width N succeeds exactly on an
      optionally signed decimal in [-2^(N-1), 2^(N-1) - 1], and yields it. */
  lemma SignedParserSpec(k: Kind, s: string, ext: Foreign)
    requires IsSigned(k)
    ensures var r := Convert(RegisteredParsers[k], s, ext);
            (r.Ok? <==> Strconv.IsSignedDecimal(s) &&
                        -(Strconv.Pow2(Width(k) - 1) as int) <= Strconv.SignedValue(s) < Strconv.Pow2(Width(k) - 1)) &&
            (r.Ok? ==> r.value == IntD(k, Strconv.SignedValue(s)))
  {
    RegisteredShape(k);
    Strconv.ParseIntSpec(s, RegisteredParsers[k].bitSize);
  }

  /** The unsigned parser for a kind of width N succeeds exactly on unsigned
      decimal text below 2^N, and yields it; a leading sign is rejected. */
  lemma UnsignedParserSpec(k: Kind, s: string, ext: Foreign)
    requires IsUnsigned(k)
    ensures var r := Convert(RegisteredParsers[k], s, ext);
            (r.Ok? <==> Strconv.IsDecimal(s) && Strconv.DecimalValue(s) < Strconv.Pow2(Width(k))) &&
            (r.Ok? ==> r.value == UintD(k, Strconv.DecimalValue(s)))
  {
    RegisteredShape(k);
    Strconv.ParseUintSpec(s, RegisteredParsers[k].bitSize);
  }

  /** The bitSize argument each integer parser passes to strconv. */
  function BitSizeArg(k: Kind): nat
    requires IsSigned(k) || IsUnsigned(k)
  {
    if k == Int || k == Uint then 0 else Width(k)
  }

  lemma RegisteredShape(k: Kind)
    requires IsSigned(k) || IsUnsigned(k)
    ensures IsSigned(k) ==> RegisteredParsers[k] == SignedParser(k, BitSizeArg(k))
    ensures IsUnsigned(k) ==> RegisteredParsers[k] == UnsignedParser(k, BitSizeArg(k))
    ensures StrconvWidth(BitSizeArg(k)) == Width(k)
  {
  }

  /** Round trip: the decimal text of every value in range of a signed kind
      parses back to that value. */
  lemma SignedRoundTrip(k: Kind, i: int, ext: Foreign)
    requires IsSigned(k) && -(Strconv.Pow2(Width(k) - 1) as int) <= i < Strconv.Pow2(Width(k) - 1)
    ensures Convert(RegisteredParsers[k], Strconv.FormatInt(i), ext) == Ok(IntD(k, i))
  {
    SignedText(k, i);
    SignedThrough(k, Strconv.FormatInt(i), i, ext);
  }

  /** Round trip: the decimal text of every value in range of an unsigned
      kind parses back to that value. */
  lemma UnsignedRoundTrip(k: Kind, u: nat, ext: Foreign)
    requires IsUnsigned(k) && u < Strconv.Pow2(Width(k))
    ensures Convert(RegisteredParsers[k], Strconv.FormatUint(u), ext) == Ok(UintD(k, u))
  {
    UnsignedText(k, u);
    UnsignedThrough(k, Strconv.FormatUint(u), u, ext);
  }

  /** strconv's half of the signed round trip, at the kind's bitSize. */
  lemma SignedText(k: Kind, i: int)
    requires IsSigned(k) && -(Strconv.Pow2(Width(k) - 1) as int) <= i < Strconv.Pow2(Width(k) - 1)
    ensures Strconv.ParseInt(Strconv.FormatInt(i), BitSizeArg(k)) == Ok(i)
  {
    var b := BitSizeArg(k);
    assert (if b == 0 then Strconv.IntSize else b) == Width(k);
    Strconv.ParseIntFormatInt(i, b);
  }

  /** strconv's half of the unsigned round trip, at the kind's bitSize. */
  lemma UnsignedText(k: Kind, u: nat)
    requires IsUnsigned(k) && u < Strconv.Pow2(Width(k))
    ensures Strconv.ParseUint(Strconv.FormatUint(u), BitSizeArg(k)) == Ok(u)
  {
    var b := BitSizeArg(k);
    assert (if b == 0 then Strconv.IntSize else b) == Width(k);
    Strconv.ParseUintFormatUint(u, b);
  }

  /** A signed kind's registered parser yields whatever strconv accepts. */
  lemma SignedThrough(k: Kind, str: string, i: int, ext: Foreign)
    requires IsSigned(k) && Strconv.ParseInt(str, BitSizeArg(k)) == Ok(i)
    ensures Convert(RegisteredParsers[k], str, ext) == Ok(IntD(k, i))
  {
    RegisteredShape(k);
  }

  /** An unsigned kind's registered parser yields whatever strconv accepts. */
  lemma UnsignedThrough(k: Kind, str: string, u: nat, ext: Foreign)
    requires IsUnsigned(k) && Strconv.ParseUint(str, BitSizeArg(k)) == Ok(u)
    ensures Convert(RegisteredParsers[k], str, ext) == Ok(UintD(k, u))
  {
    RegisteredShape(k);
  }

  /** The bool parser accepts exactly strconv's twelve spellings. */
  lemma BoolParserSpec(s: string, ext: Foreign)
    ensures var r := Convert(BoolParser, s, ext);
            (r.Ok? <==> s in Strconv.TrueStrings || s in Strconv.FalseStrings) &&
            (r.Ok? ==> r.value == BoolD(s in Strconv.TrueStrings))
  {
  }

  /** The string parser never fails and stores its input unchanged into any
      settable string target. */
  lemma StringParserSpec(v: Value, s: string, ext: Foreign)
    requires KindOf(v) == String
    ensures ParseOutcome(StringParser, v, true, s, ext) == Ok(Value(StringD(s), v.caps))
  {
  }

  /** "-399" is rejected by every unsigned parser. */
  lemma UnsignedRejectsNegative(k: Kind, ext: Foreign)
    requires IsUnsigned(k)
    ensures Convert(RegisteredParsers[k], "-399", ext) == Err(Strconv.ErrSyntax)
  {
    RegisteredShape(k);
    Strconv.ParseUintRejectsSign("-399", RegisteredParsers[k].bitSize);
  }
}
