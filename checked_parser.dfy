/** The checked parsers of internal/checked_parser.go: parsers that first
    probe whether they apply to a value. The only one registered is the text
    parser, which applies when the value, its pointee or its address has an
    `UnmarshalText` method, and then parses by calling that method. */
module CheckedParsers {
  import opened Wrappers
  import opened Values

  /** The registered CheckedParser implementations. */
  datatype CheckedParser = TextParser

  /** registeredCheckedParsers */
  const Registered: seq<CheckedParser> := [TextParser]

  /** Where the lookup found `UnmarshalText`. */
  datatype Receiver = OnValue | OnPointee | OnAddress

  /** textParser.method: look on the value itself; failing that, on the
      pointee if the value is a pointer, or else on the value's address if it
      is addressable. Probing the pointee of a nil pointer asks the zero
      Value for a method, which panics. */
  function Method(v: Value, canAddr: bool): (r: Result<Option<Receiver>, Failure>)
    ensures (r == Ok(Some(OnValue))) <==> v.caps.own
    ensures r == Ok(Some(OnPointee)) <==>
              !v.caps.own && KindOf(v) == Pointer && Elem(v).Some? && Elem(v).value.caps.own
    ensures r == Ok(Some(OnAddress)) <==> !v.caps.own && KindOf(v) != Pointer && canAddr && v.caps.viaAddr
    ensures r.Err? <==> !v.caps.own && KindOf(v) == Pointer && Elem(v).None?
    ensures r == Ok(None) <==>
              !v.caps.own &&
              if KindOf(v) == Pointer then Elem(v).Some? && !Elem(v).value.caps.own
              else !(canAddr && v.caps.viaAddr)
    ensures KindOf(v) == Pointer ==> r == Method(v, false)
  {
    if v.caps.own then Ok(Some(OnValue))
    else if KindOf(v) == Pointer then
      match Elem(v)
      case None => Err(ZeroValue)
      case Some(e) => if e.caps.own then Ok(Some(OnPointee)) else Ok(None)
    else if canAddr && v.caps.viaAddr then Ok(Some(OnAddress))
    else Ok(None)
  }

  /** CheckedParser.Check: true exactly when the lookup finds the method. */
  function Check(p: CheckedParser, v: Value, canAddr: bool): (r: Result<bool, Failure>)
    ensures r == Ok(true) <==>
              v.caps.own ||
              (KindOf(v) == Pointer && Elem(v).Some? && Elem(v).value.caps.own) ||
              (KindOf(v) != Pointer && canAddr && v.caps.viaAddr)
    ensures r.Err? <==> !v.caps.own && KindOf(v) == Pointer && Elem(v).None?
  {
    match Method(v, canAddr)
    case Err(f) => Err(f)
    case Ok(m) => Ok(m.Some?)
  }

  /** What textParser.Parse does to a target holding `v`: with no method
      found it reports "not available" and calls nothing; otherwise it calls
      the method (which reflect refuses for a value read through an
      unexported field) and reports the error the method returns. */
  function TextOutcome(v: Value, canAddr: bool, exported: bool, s: string, ext: Foreign): Outcome {
    match Method(v, canAddr)
    case Err(f) => Outcome(v, Some(f))
    case Ok(None) => Outcome(v, Some(MethodUnavailable))
    case Ok(Some(_)) =>
      if !exported then Outcome(v, Some(UnexportedCall))
      else
        var res := ext.unmarshalText(v, s);
        Outcome(res.value, if res.err.Some? then Some(TextErr(res.err.value)) else None)
  }

  /** The first parser of `ps` whose Check holds; a Check that panics ends
      the search with its failure. */
  function FirstChecked(ps: seq<CheckedParser>, v: Value, canAddr: bool): Result<Option<CheckedParser>, Failure> {
    if ps == [] then Ok(None)
    else
      match Check(ps[0], v, canAddr)
      case Err(f) => Err(f)
      case Ok(found) => if found then Ok(Some(ps[0])) else FirstChecked(ps[1..], v, canAddr)
  }

  /** The search finds the first parser whose Check holds: every parser
      before it answers no, and a parser is found exactly when none before
      it panics and one answers yes. */
  lemma {:induction false} FirstCheckedIsFirst(ps: seq<CheckedParser>, v: Value, canAddr: bool)
    ensures var r := FirstChecked(ps, v, canAddr);
            r.Ok? && r.value.Some? ==>
              exists j | 0 <= j < |ps| ::
                ps[j] == r.value.value && Check(ps[j], v, canAddr) == Ok(true) &&
                forall i | 0 <= i < j :: Check(ps[i], v, canAddr) == Ok(false)
    ensures var r := FirstChecked(ps, v, canAddr);
            r == Ok(None) <==> forall i | 0 <= i < |ps| :: Check(ps[i], v, canAddr) == Ok(false)
  {
    if ps != [] {
      FirstCheckedIsFirst(ps[1..], v, canAddr);
      if Check(ps[0], v, canAddr) == Ok(false) {
        if forall i | 0 <= i < |ps[1..]| :: Check(ps[1..][i], v, canAddr) == Ok(false) {
          forall i | 0 <= i < |ps|
            ensures Check(ps[i], v, canAddr) == Ok(false)
          {
            if i > 0 {
              assert ps[i] == ps[1..][i - 1];
            }
          }
        }
      }
    }
  }

  /** SelectCheckedParser: the registered parsers are tried in order. */
  method SelectCheckedParser(v: Value, canAddr: bool) returns (r: Result<Option<CheckedParser>, Failure>)
    ensures r == FirstChecked(Registered, v, canAddr)
  {
    for i := 0 to |Registered|
      invariant FirstChecked(Registered[i..], v, canAddr) == FirstChecked(Registered, v, canAddr)
    {
      var parser := Registered[i];
      var ok := Check(parser, v, canAddr);
      assert Registered[i..][0] == parser && Registered[i..][1..] == Registered[i + 1..];
      if ok.Err? {
        return Err(ok.error);
      }
      if ok.value {
        return Ok(Some(parser));
      }
    }
    return Ok(None);
  }

  /** textParser.Parse, on a handle it updates in place. */
  method Parse(p: CheckedParser, h: Handle, s: string, ext: Foreign) returns (err: Option<Failure>)
    modifies h
    ensures var o := TextOutcome(old(h.value), h.canAddr, h.exported, s, ext);
            h.value == o.value && err == o.err
  {
    var m := Method(h.value, h.canAddr);
    if m.Err? {
      return Some(m.error);
    }
    if m.value.None? {
      return Some(MethodUnavailable);
    }
    if !h.exported {
      return Some(UnexportedCall);
    }
    var returned := ext.unmarshalText(h.value, s);
    h.value := returned.value;
    if returned.err.Some? {
      return Some(TextErr(returned.err.value));
    }
    return None;
  }

  // ---------------------------------------------------------------------
  // Properties

  /** With the text parser the only one registered, selection finds it
      exactly when the lookup finds `UnmarshalText`, and passes on the panic
      of a nil pointer's probe. */
  lemma SelectTextParser(v: Value, canAddr: bool)
    ensures FirstChecked(Registered, v, canAddr) ==
              match Method(v, canAddr)
              case Err(f) => Err(f)
              case Ok(m) => if m.Some? then Ok(Some(TextParser)) else Ok(None)
  {
    assert Registered[1..] == [];
  }

  /** Without a method the parse calls nothing: the target keeps its value. */
  lemma UnavailableCallsNothing(v: Value, canAddr: bool, exported: bool, s: string, ext: Foreign)
    requires Method(v, canAddr) == Ok(None)
    ensures TextOutcome(v, canAddr, exported, s, ext) == Outcome(v, Some(MethodUnavailable))
  {
  }

  /** Check and Parse share one lookup: when Check holds, Parse never reports
      "not available", and it fails exactly when UnmarshalText returns an
      error (or reflect refuses the call). */
  lemma CheckedParseAvailable(v: Value, canAddr: bool, exported: bool, s: string, ext: Foreign)
    requires Check(TextParser, v, canAddr) == Ok(true)
    ensures TextOutcome(v, canAddr, exported, s, ext).err != Some(MethodUnavailable)
    ensures exported ==>
              (TextOutcome(v, canAddr, exported, s, ext).err.Some? <==> ext.unmarshalText(v, s).err.Some?)
  {
  }
}
