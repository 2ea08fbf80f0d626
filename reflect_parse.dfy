/** The ParseInto of internal/reflect.go, which takes the target as an
    interface value instead of a reflect.Value. A target implementing
    encoding.TextUnmarshaler is handed the text and the method's error is
    dropped; any other target goes through the kind switch of
    internal/parse.go, which can only write through a pointer, since an
    interface holds a copy of any other value. */
module InterfaceParse {
  import opened Wrappers
  import opened Values
  import Strconv
  import ValueParse

  /** ParseInto for the dynamic value `target` of the interface. */
  function ParseInto(str: string, target: Value, ext: Foreign): (o: Outcome)
    ensures target.caps.own ==> o.err.None?
    ensures target.caps.own ==>
              o.value == if KindOf(target) == Pointer then ext.unmarshalText(target, str).value else target
    ensures KindOf(target) != Pointer ==> o.value == target
    ensures !target.caps.own && KindOf(target) != Pointer ==> o.err.Some?
  {
    if target.caps.own then
      var returned := ext.unmarshalText(target, str);
      Outcome(if KindOf(target) == Pointer then returned.value else target, None)
    else if KindOf(target) == Pointer then
      match Elem(target)
      case None => Outcome(target, Some(UnsupportedType))
      case Some(e) =>
        var o := ValueParse.SetScalar(str, e, true, ext);
        if o.err.Some? then Outcome(target, o.err)
        else Outcome(Value(PtrD(Some(o.value)), target.caps), None)
    else
      ValueParse.SetScalar(str, target, false, ext)
  }

  // ---------------------------------------------------------------------
  // Properties

  /** Through a pointer the two ParseInto functions write the same value and
      report the same failure, except that this one drops the error an
      `UnmarshalText` method returns. */
  lemma AgreesWithValueParse(str: string, target: Value, canAddr: bool, ext: Foreign)
    requires KindOf(target) == Pointer
    ensures ParseInto(str, target, ext).value == ValueParse.ParseInto(str, target, canAddr, true, ext).value
    ensures !target.caps.own ==>
              ParseInto(str, target, ext) == ValueParse.ParseInto(str, target, canAddr, true, ext)
  {
  }

  /** Round trip through a pointer: the decimal text of a number in range of
      a signed kind is stored in the pointee unchanged, as the tests of
      internal/reflect.go expect for new(int8) and its kin. */
  lemma SignedRoundTrip(k: Kind, i: int, target: Value, ext: Foreign)
    requires IsSigned(k) && -(Strconv.Pow2(Width(k) - 1) as int) <= i < Strconv.Pow2(Width(k) - 1)
    requires !target.caps.own && ValueParse.Pointee(target).Some?
    requires KindOf(ValueParse.Pointee(target).value) == k
    ensures var o := ParseInto(Strconv.FormatInt(i), target, ext);
            o.err.None? && ValueParse.Pointee(o.value) == Some(Value(IntD(k, i), ValueParse.Pointee(target).value.caps))
  {
    ValueParse.SignedRoundTrip(k, i, target, true, ext);
    AgreesThroughPointer(Strconv.FormatInt(i), target, ext);
  }

  /** Round trip through a pointer for the unsigned kinds. */
  lemma UnsignedRoundTrip(k: Kind, u: nat, target: Value, ext: Foreign)
    requires IsUnsigned(k) && u < Strconv.Pow2(Width(k))
    requires !target.caps.own && ValueParse.Pointee(target).Some?
    requires KindOf(ValueParse.Pointee(target).value) == k
    ensures var o := ParseInto(Strconv.FormatUint(u), target, ext);
            o.err.None? && ValueParse.Pointee(o.value) == Some(Value(UintD(k, u), ValueParse.Pointee(target).value.caps))
  {
    ValueParse.UnsignedRoundTrip(k, u, target, true, ext);
    AgreesThroughPointer(Strconv.FormatUint(u), target, ext);
  }

  /** Through a pointer without UnmarshalText, this function is the
      ParseInto of internal/parse.go for an exported field. */
  lemma AgreesThroughPointer(str: string, target: Value, ext: Foreign)
    requires !target.caps.own && ValueParse.Pointee(target).Some?
    ensures ParseInto(str, target, ext) == ValueParse.ParseInto(str, target, true, true, ext)
  {
    AgreesWithValueParse(str, target, true, ext);
  }

  /** Any text is stored unchanged through a pointer to a string. */
  lemma StringStored(str: string, target: Value, ext: Foreign)
    requires !target.caps.own && ValueParse.Pointee(target).Some?
    requires KindOf(ValueParse.Pointee(target).value) == String
    ensures ParseInto(str, target, ext) ==
              Outcome(Value(PtrD(Some(Value(StringD(str), ValueParse.Pointee(target).value.caps))), target.caps), None)
  {
  }
}
