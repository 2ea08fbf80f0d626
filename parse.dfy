/** The reflect-based ParseInto of internal/parse.go. It writes a query
    parameter into a reflect.Value: through its `UnmarshalText` method when
    the value's type has one, and otherwise through the setter for its kind
    (after following one pointer). Its panics are failures here. */
module ValueParse {
  import opened Wrappers
  import opened Values
  import Strconv
  import ScalarParsers

  /** reflect's SetInt, SetUint, SetFloat, SetBool and SetString: refused
      when the target is not settable, and otherwise storing the data while
      the target keeps its type. */
  function Store(t: Value, settable: bool, d: Data): (o: Outcome)
    ensures o.err.None? <==> settable
    ensures settable ==> o.value == Value(d, t.caps)
    ensures !settable ==> o == Outcome(t, Some(NotSettable))
  {
    if settable then Outcome(Value(d, t.caps), None) else Outcome(t, Some(NotSettable))
  }

  /** Whether the kind switch of ParseInto has a case for a kind. */
  predicate Handled(k: Kind) {
    IsSigned(k) || IsUnsigned(k) || IsFloat(k) || k == Bool || k == String
  }

  /** The switch on the target's kind that internal/parse.go and
      internal/reflect.go share: parse with the 64-bit strconv function of
      the kind's family, then store through the family's setter, which
      narrows an integer to the target's own width. The text is parsed
      before settability is looked at. */
  function SetScalar(str: string, t: Value, settable: bool, ext: Foreign): (o: Outcome)
    ensures o.err.Some? ==> o.value == t
    ensures o.err.None? ==> settable && KindOf(o.value) == KindOf(t) && o.value.caps == t.caps
    ensures o.err == Some(UnsupportedType) <==> !Handled(KindOf(t))
    ensures KindOf(t) == String ==> o == Store(t, settable, StringD(str))
  {
    var k := KindOf(t);
    if IsSigned(k) then
      match Strconv.ParseInt(str, 64)
      case Err(e) => Outcome(t, Some(NumErr(e)))
      case Ok(i) => Store(t, settable, IntD(k, WrapSigned(i, Width(k))))
    else if IsUnsigned(k) then
      match Strconv.ParseUint(str, 64)
      case Err(e) => Outcome(t, Some(NumErr(e)))
      case Ok(u) => Store(t, settable, UintD(k, WrapUnsigned(u, Width(k))))
    else if IsFloat(k) then
      match ext.parseFloat(str, 64)
      case Err(e) => Outcome(t, Some(NumErr(e)))
      case Ok(f) => Store(t, settable, FloatD(k, if k == Float32 then ext.toFloat32(f) else f))
    else if k == Bool then
      match Strconv.ParseBool(str)
      case Err(e) => Outcome(t, Some(NumErr(e)))
      case Ok(b) => Store(t, settable, BoolD(b))
    else if k == String then
      Store(t, settable, StringD(str))
    else
      Outcome(t, Some(UnsupportedType))
  }

  /** ParseInto for a target reached through a field that is addressable
      (`canAddr`) and exported or not. A method found on the target is called
      (reflect refuses a method of an unexported field), and an error it
      returns becomes "Error while calling UnmarshalText", although what the
      method wrote stays. Otherwise a pointer is followed once (the pointee
      is addressable; a nil pointer yields the zero Value, whose kind no case
      handles) and the kind switch decides. Whatever else fails leaves the
      target as it was, and an unexported field is never written. */
  function ParseInto(str: string, target: Value, canAddr: bool, exported: bool, ext: Foreign): (o: Outcome)
    ensures o.err.Some? && o.err != Some(UnmarshalFailed) ==> o.value == target
    ensures !exported ==> o.err.Some? && o.value == target
    ensures target.caps.own ==>
              (o.err.None? <==> exported && ext.unmarshalText(target, str).err.None?)
    ensures target.caps.own && exported ==>
              o.value == ext.unmarshalText(target, str).value &&
              (o.err.Some? <==> o.err == Some(UnmarshalFailed))
  {
    if target.caps.own then
      if !exported then Outcome(target, Some(UnexportedCall))
      else
        var returned := ext.unmarshalText(target, str);
        Outcome(returned.value, if returned.err.Some? then Some(UnmarshalFailed) else None)
    else if KindOf(target) == Pointer then
      match Elem(target)
      case None => Outcome(target, Some(UnsupportedType))
      case Some(e) =>
        var o := SetScalar(str, e, exported, ext);
        if o.err.Some? then Outcome(target, o.err)
        else Outcome(Value(PtrD(Some(o.value)), target.caps), None)
    else
      SetScalar(str, target, canAddr && exported, ext)
  }

  /** The pointee a successful parse through a pointer stores. */
  function Pointee(v: Value): Option<Value> {
    match v.data
    case PtrD(p) => p
    case _ => None
  }

  // ---------------------------------------------------------------------
  // Properties

  /** A signed target stores the 64-bit parse, truncated to its width. */
  lemma SignedStore(str: string, t: Value, ext: Foreign, i: int)
    requires IsSigned(KindOf(t)) && Strconv.ParseInt(str, 64) == Ok(i)
    ensures SetScalar(str, t, true, ext) == Outcome(Value(IntD(KindOf(t), WrapSigned(i, Width(KindOf(t)))), t.caps), None)
  {
  }

  /** An unsigned target stores the 64-bit parse, truncated to its width. */
  lemma UnsignedStore(str: string, t: Value, ext: Foreign, u: nat)
    requires IsUnsigned(KindOf(t)) && Strconv.ParseUint(str, 64) == Ok(u)
    ensures SetScalar(str, t, true, ext) == Outcome(Value(UintD(KindOf(t), WrapUnsigned(u, Width(KindOf(t)))), t.caps), None)
  {
  }

  /** A text the 64-bit ParseInt rejects makes the switch fail for every
      signed target, with strconv's error and the target unchanged; the
      target's own width plays no part. */
  lemma SignedRejected(str: string, t: Value, settable: bool, ext: Foreign)
    requires IsSigned(KindOf(t)) && Strconv.ParseInt(str, 64).Err?
    ensures SetScalar(str, t, settable, ext) == Outcome(t, Some(NumErr(Strconv.ParseInt(str, 64).error)))
  {
  }

  /** A text the 64-bit ParseUint rejects makes the switch fail for every
      unsigned target, with strconv's error and the target unchanged. */
  lemma UnsignedRejected(str: string, t: Value, settable: bool, ext: Foreign)
    requires IsUnsigned(KindOf(t)) && Strconv.ParseUint(str, 64).Err?
    ensures SetScalar(str, t, settable, ext) == Outcome(t, Some(NumErr(Strconv.ParseUint(str, 64).error)))
  {
  }

  /** A bool target receives what ParseBool makes of the text, and fails
      with its syntax error on any other spelling. */
  lemma BoolStore(str: string, t: Value, ext: Foreign)
    requires KindOf(t) == Bool
    ensures Strconv.ParseBool(str).Ok? ==>
              SetScalar(str, t, true, ext) == Outcome(Value(BoolD(str in Strconv.TrueStrings), t.caps), None)
    ensures Strconv.ParseBool(str).Err? ==>
              SetScalar(str, t, true, ext) == Outcome(t, Some(NumErr(Strconv.ErrSyntax)))
  {
  }

  /** Through a pointer without UnmarshalText, what the kind switch stores
      in the pointee is what ParseInto stores. */
  lemma PointerStore(str: string, target: Value, canAddr: bool, ext: Foreign, v: Value)
    requires !target.caps.own && Pointee(target).Some?
    requires SetScalar(str, Pointee(target).value, true, ext) == Outcome(v, None)
    ensures ParseInto(str, target, canAddr, true, ext) == Outcome(Value(PtrD(Some(v)), target.caps), None)
  {
    assert KindOf(target) == Pointer && Elem(target) == Pointee(target);
  }

  /** Wherever the typed parser of internal/parser.go accepts a text for a
      signed kind, this function stores the same number. */
  lemma SignedAgrees(k: Kind, str: string, t: Value, ext: Foreign)
    requires IsSigned(k) && KindOf(t) == k
    requires ScalarParsers.Convert(ScalarParsers.RegisteredParsers[k], str, ext).Ok?
    ensures SetScalar(str, t, true, ext) ==
              Outcome(Value(ScalarParsers.Convert(ScalarParsers.RegisteredParsers[k], str, ext).value, t.caps), None)
  {
    var n := SignedAccepted(k, str, ext);
    SignedStore(str, t, ext, n);
  }

  /** What the typed parser accepts for a signed kind, the 64-bit parse
      accepts too, with the same number, which fits the kind's width. */
  lemma SignedAccepted(k: Kind, str: string, ext: Foreign) returns (n: int)
    requires IsSigned(k)
    requires ScalarParsers.Convert(ScalarParsers.RegisteredParsers[k], str, ext).Ok?
    ensures ScalarParsers.Convert(ScalarParsers.RegisteredParsers[k], str, ext).value == IntD(k, n)
    ensures Strconv.ParseInt(str, 64) == Ok(n) && WrapSigned(n, Width(k)) == n
  {
    ScalarParsers.SignedParserSpec(k, str, ext);
    n := Strconv.SignedValue(str);
    SignedWithin64(k, n);
    ParseInt64(str);
  }

  /** A number in range of a signed kind is in range of int64. */
  lemma SignedWithin64(k: Kind, n: int)
    requires IsSigned(k) && -(Strconv.Pow2(Width(k) - 1) as int) <= n < Strconv.Pow2(Width(k) - 1)
    ensures -(Strconv.Pow2(63) as int) <= n < Strconv.Pow2(63)
  {
    Strconv.Pow2Monotone(Width(k) - 1, 63);
  }

  lemma ParseInt64(str: string)
    requires Strconv.IsSignedDecimal(str)
    requires -(Strconv.Pow2(63) as int) <= Strconv.SignedValue(str) < Strconv.Pow2(63)
    ensures Strconv.ParseInt(str, 64) == Ok(Strconv.SignedValue(str))
  {
    Strconv.ParseIntSpec(str, 64);
  }

  /** Wherever the typed parser of internal/parser.go accepts a text for an
      unsigned kind, this function stores the same number. */
  lemma UnsignedAgrees(k: Kind, str: string, t: Value, ext: Foreign)
    requires IsUnsigned(k) && KindOf(t) == k
    requires ScalarParsers.Convert(ScalarParsers.RegisteredParsers[k], str, ext).Ok?
    ensures SetScalar(str, t, true, ext) ==
              Outcome(Value(ScalarParsers.Convert(ScalarParsers.RegisteredParsers[k], str, ext).value, t.caps), None)
  {
    var n := UnsignedAccepted(k, str, ext);
    UnsignedStore(str, t, ext, n);
    assert WrapUnsigned(n, Width(k)) == n;
  }

  /** What the typed parser accepts for an unsigned kind, the 64-bit parse
      accepts too, with the same number, which fits the kind's width. */
  lemma UnsignedAccepted(k: Kind, str: string, ext: Foreign) returns (n: nat)
    requires IsUnsigned(k)
    requires ScalarParsers.Convert(ScalarParsers.RegisteredParsers[k], str, ext).Ok?
    ensures ScalarParsers.Convert(ScalarParsers.RegisteredParsers[k], str, ext).value == UintD(k, n)
    ensures Strconv.ParseUint(str, 64) == Ok(n) && n < Strconv.Pow2(Width(k))
  {
    ScalarParsers.UnsignedParserSpec(k, str, ext);
    n := Strconv.DecimalValue(str);
    UnsignedWithin64(k, n);
    ParseUint64(str);
  }

  /** A number in range of an unsigned kind is in range of uint64. */
  lemma UnsignedWithin64(k: Kind, n: nat)
    requires IsUnsigned(k) && n < Strconv.Pow2(Width(k))
    ensures n < Strconv.Pow2(64)
  {
    Strconv.Pow2Monotone(Width(k), 64);
  }

  lemma ParseUint64(str: string)
    requires Strconv.IsDecimal(str) && Strconv.DecimalValue(str) < Strconv.Pow2(64)
    ensures Strconv.ParseUint(str, 64) == Ok(Strconv.DecimalValue(str))
  {
    Strconv.ParseUintSpec(str, 64);
  }

  /** Where the typed parser reports an error for a signed kind but the
      number fits in 64 bits, this function stores the number's
      two's-complement truncation to the kind's width, which differs from
      the number. */
  lemma TruncatesOutOfRange(k: Kind, str: string, t: Value, ext: Foreign, n: int)
    requires IsSigned(k) && KindOf(t) == k
    requires Strconv.ParseInt(str, 64) == Ok(n)
    requires ScalarParsers.Convert(ScalarParsers.RegisteredParsers[k], str, ext).Err?
    ensures SetScalar(str, t, true, ext) == Outcome(Value(IntD(k, WrapSigned(n, Width(k))), t.caps), None)
    ensures WrapSigned(n, Width(k)) != n
  {
    SignedStore(str, t, ext, n);
    OutOfKindRange(k, str, ext, n);
  }

  /** A text the 64-bit parse reads but the typed parser rejects denotes a
      number out of the kind's range. */
  lemma OutOfKindRange(k: Kind, str: string, ext: Foreign, n: int)
    requires IsSigned(k) && Strconv.ParseInt(str, 64) == Ok(n)
    requires ScalarParsers.Convert(ScalarParsers.RegisteredParsers[k], str, ext).Err?
    ensures !(-(Strconv.Pow2(Width(k) - 1) as int) <= n < Strconv.Pow2(Width(k) - 1))
  {
    Strconv.ParseIntSpec(str, 64);
    ScalarParsers.SignedParserSpec(k, str, ext);
  }

  /** Any text the 64-bit parse reads as a number from 128 to 255, written
      into an addressable exported int8 field, is stored as that number minus
      256 ("200" becomes -56). */
  lemma Int8Narrowing(str: string, t: Value, ext: Foreign, n: int)
    requires KindOf(t) == Int8 && !t.caps.own
    requires Strconv.ParseInt(str, 64) == Ok(n) && 128 <= n < 256
    ensures ParseInto(str, t, true, true, ext) == Outcome(Value(IntD(Int8, n - 256), t.caps), None)
  {
    DirectStore(str, t, true, ext);
    SignedStore(str, t, ext, n);
    Int8Wrap(n);
  }

  /** int8 truncation of a number from 128 to 255. */
  lemma Int8Wrap(n: int)
    requires 128 <= n < 256
    ensures WrapSigned(n, 8) == n - 256
  {
    var r := WrapSigned(n, 8);
    assert Strconv.Pow2(7) == 128 && Strconv.Pow2(8) == 256;
    assert (n - r) % 256 == 0 && -128 <= r < 128;
  }

  /** Without UnmarshalText and without a pointer, ParseInto is the kind
      switch on the target itself. */
  lemma DirectStore(str: string, t: Value, canAddr: bool, ext: Foreign)
    requires !t.caps.own && KindOf(t) != Pointer
    ensures ParseInto(str, t, canAddr, true, ext) == SetScalar(str, t, canAddr, ext)
  {
  }

  /** Round trip through a pointer: the decimal text of a number in range of
      a signed kind, written through an exported pointer field, is stored in
      the pointee unchanged. */
  lemma SignedRoundTrip(k: Kind, i: int, target: Value, canAddr: bool, ext: Foreign)
    requires IsSigned(k) && -(Strconv.Pow2(Width(k) - 1) as int) <= i < Strconv.Pow2(Width(k) - 1)
    requires !target.caps.own && Pointee(target).Some? && KindOf(Pointee(target).value) == k
    ensures var o := ParseInto(Strconv.FormatInt(i), target, canAddr, true, ext);
            o.err.None? && Pointee(o.value) == Some(Value(IntD(k, i), Pointee(target).value.caps))
  {
    SignedText(k, i);
    SignedThrough(Strconv.FormatInt(i), k, i, target, canAddr, ext);
  }

  /** The decimal text of a number in range of a signed kind parses back to
      it at 64 bits. */
  lemma SignedText(k: Kind, i: int)
    requires IsSigned(k) && -(Strconv.Pow2(Width(k) - 1) as int) <= i < Strconv.Pow2(Width(k) - 1)
    ensures Strconv.ParseInt(Strconv.FormatInt(i), 64) == Ok(i)
  {
    SignedWithin64(k, i);
    Strconv.ParseIntFormatInt(i, 64);
  }

  /** A text the 64-bit ParseInt reads as a number in range of a signed kind
      is stored through a pointer to that kind unchanged. */
  lemma SignedThrough(str: string, k: Kind, i: int, target: Value, canAddr: bool, ext: Foreign)
    requires IsSigned(k) && -(Strconv.Pow2(Width(k) - 1) as int) <= i < Strconv.Pow2(Width(k) - 1)
    requires !target.caps.own && Pointee(target).Some? && KindOf(Pointee(target).value) == k
    requires Strconv.ParseInt(str, 64) == Ok(i)
    ensures ParseInto(str, target, canAddr, true, ext) ==
              Outcome(Value(PtrD(Some(Value(IntD(k, i), Pointee(target).value.caps))), target.caps), None)
  {
    var e := Pointee(target).value;
    assert KindOf(e) == k && WrapSigned(i, Width(k)) == i;
    SignedStore(str, e, ext, i);
    var v := Value(IntD(k, i), e.caps);
    assert SetScalar(str, e, true, ext) == Outcome(v, None);
    PointerStore(str, target, canAddr, ext, v);
  }

  /** Round trip through a pointer for the unsigned kinds. */
  lemma UnsignedRoundTrip(k: Kind, u: nat, target: Value, canAddr: bool, ext: Foreign)
    requires IsUnsigned(k) && u < Strconv.Pow2(Width(k))
    requires !target.caps.own && Pointee(target).Some? && KindOf(Pointee(target).value) == k
    ensures var o := ParseInto(Strconv.FormatUint(u), target, canAddr, true, ext);
            o.err.None? && Pointee(o.value) == Some(Value(UintD(k, u), Pointee(target).value.caps))
  {
    UnsignedText(k, u);
    UnsignedThrough(Strconv.FormatUint(u), k, u, target, canAddr, ext);
  }

  lemma UnsignedText(k: Kind, u: nat)
    requires IsUnsigned(k) && u < Strconv.Pow2(Width(k))
    ensures Strconv.ParseUint(Strconv.FormatUint(u), 64) == Ok(u)
  {
    UnsignedWithin64(k, u);
    Strconv.ParseUintFormatUint(u, 64);
  }

  lemma UnsignedThrough(str: string, k: Kind, u: nat, target: Value, canAddr: bool, ext: Foreign)
    requires IsUnsigned(k) && u < Strconv.Pow2(Width(k))
    requires !target.caps.own && Pointee(target).Some? && KindOf(Pointee(target).value) == k
    requires Strconv.ParseUint(str, 64) == Ok(u)
    ensures ParseInto(str, target, canAddr, true, ext) ==
              Outcome(Value(PtrD(Some(Value(UintD(k, u), Pointee(target).value.caps))), target.caps), None)
  {
    var e := Pointee(target).value;
    assert KindOf(e) == k && WrapUnsigned(u, Width(k)) == u;
    UnsignedStore(str, e, ext, u);
    var v := Value(UintD(k, u), e.caps);
    assert SetScalar(str, e, true, ext) == Outcome(v, None);
    PointerStore(str, target, canAddr, ext, v);
  }
}
