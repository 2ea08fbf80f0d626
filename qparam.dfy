/** The reader of qparam.go. `New` starts from the tag key "param" and a
    lower-casing name mapper and applies its options in order; `Read` fills
    the top-level fields of each target struct from the first value of the
    query parameter each field is named after, through the ParseInto of
    internal/parse.go. That ParseInto reports every failure by panicking and
    `Read` does not recover, so the first failure ends the whole read, with
    what was written before it kept. */
module Qparam {
  import opened Wrappers
  import opened Values
  import ValueParse
  import FieldIterator

  const DefaultTag := "param"

  // ---------------------------------------------------------------------
  // Options

  /** The functional options Mapper and Tag. */
  datatype ReaderOption =
    | MapperOption(mapper: string -> string)
    | TagOption(tag: string)

  /** The tag key and mapper left by applying options in order to a reader
      that has `tag` and `mapper`. */
  function Configure(options: seq<ReaderOption>, tag: string, mapper: string -> string): (r: (string, string -> string))
    ensures r.0 == tag || TagOption(r.0) in options
    ensures r.1 == mapper || MapperOption(r.1) in options
    decreases |options|
  {
    if options == [] then (tag, mapper)
    else
      match options[0]
      case MapperOption(m) => Configure(options[1..], tag, m)
      case TagOption(t) => Configure(options[1..], t, mapper)
  }

  predicate SetsTag(o: ReaderOption) {
    o.TagOption?
  }

  /** Applying two runs of options is applying the first, then the second. */
  lemma {:induction false} ConfigureConcat(a: seq<ReaderOption>, b: seq<ReaderOption>, tag: string, mapper: string -> string)
    ensures var c := Configure(a, tag, mapper);
            Configure(a + b, tag, mapper) == Configure(b, c.0, c.1)
    decreases |a|
  {
    if a == [] {
      assert a + b == b;
    } else {
      assert (a + b)[1..] == a[1..] + b;
      match a[0]
      case MapperOption(m) => ConfigureConcat(a[1..], b, tag, m);
      case TagOption(t) => ConfigureConcat(a[1..], b, t, mapper);
    }
  }

  /** Options that set no tag leave the tag key alone. */
  lemma {:induction false} TagKept(options: seq<ReaderOption>, tag: string, mapper: string -> string)
    requires forall o | o in options :: !SetsTag(o)
    ensures Configure(options, tag, mapper).0 == tag
    decreases |options|
  {
    if options != [] {
      assert options[0] in options;
      match options[0]
      case MapperOption(m) => TagKept(options[1..], tag, m);
    }
  }

  /** Options that set no mapper leave the mapper alone. */
  lemma {:induction false} MapperKept(options: seq<ReaderOption>, tag: string, mapper: string -> string)
    requires forall o | o in options :: SetsTag(o)
    ensures Configure(options, tag, mapper).1 == mapper
    decreases |options|
  {
    if options != [] {
      assert options[0] in options;
      match options[0]
      case TagOption(t) => MapperKept(options[1..], t, mapper);
    }
  }

  /** The last Tag option decides the tag key, whatever came before it. */
  lemma LastTagWins(before: seq<ReaderOption>, t: string, after: seq<ReaderOption>, tag: string, mapper: string -> string)
    requires forall o | o in after :: !SetsTag(o)
    ensures Configure(before + [TagOption(t)] + after, tag, mapper).0 == t
  {
    var c := Configure(before, tag, mapper);
    ConfigureConcat(before + [TagOption(t)], after, tag, mapper);
    ConfigureConcat(before, [TagOption(t)], tag, mapper);
    assert Configure([TagOption(t)], c.0, c.1) == (t, c.1);
    TagKept(after, t, c.1);
  }

  /** The last Mapper option decides the mapper, whatever came before it. */
  lemma LastMapperWins(before: seq<ReaderOption>, m: string -> string, after: seq<ReaderOption>, tag: string, mapper: string -> string)
    requires forall o | o in after :: SetsTag(o)
    ensures Configure(before + [MapperOption(m)] + after, tag, mapper).1 == m
  {
    var c := Configure(before, tag, mapper);
    ConfigureConcat(before + [MapperOption(m)], after, tag, mapper);
    ConfigureConcat(before, [MapperOption(m)], tag, mapper);
    assert Configure([MapperOption(m)], c.0, c.1) == (c.0, m);
    MapperKept(after, Configure(before + [MapperOption(m)], tag, mapper).0, m);
  }

  // ---------------------------------------------------------------------
  // Targets

  /** A field declaration: its Go name, its struct tag as key/value pairs,
      and whether it is exported. */
  datatype FieldDecl = FieldDecl(name: string, tags: map<string, string>, exported: bool)

  /** A struct a target points to: its field declarations and, updated in
      place, the values of its fields. */
  class Record {
    const fields: seq<FieldDecl>
    var values: seq<Value>

    constructor (fields: seq<FieldDecl>, values: seq<Value>)
      requires |values| == |fields|
      ensures this.fields == fields && this.values == values
    {
      this.fields := fields;
      this.values := values;
    }
  }

  /** What a target passed to Read can be. */
  datatype Target =
    | PointerTo(obj: Record)                     // a non-nil pointer to a struct
    | NilStructPointer(fields: seq<FieldDecl>)   // a nil pointer of a struct type
    | PointerToNonStruct                         // a pointer to anything else
    | NonPointer                                 // any value that is not a pointer
    | NilInterface                               // the untyped nil

  /** The query parameters: each key with its list of values. */
  type Params = map<string, seq<string>>

  /** The parameter a field reads: the value of its tag under the reader's
      key whenever the key is present (even with an empty value), and
      otherwise the mapped Go name. */
  function ParamName(tag: string, mapper: string -> string, f: FieldDecl): (n: string)
    ensures tag in f.tags ==> n == f.tags[tag]
    ensures tag !in f.tags ==> n == mapper(f.name)
  {
    if tag in f.tags then f.tags[tag] else mapper(f.name)
  }

  /** Unlike the iterator, which falls back to the mapper on an empty tag
      value, Read then reads the parameter named "". The two namings agree
      exactly where the tag value is absent or non-empty, or the mapper maps
      the name to "". */
  lemma NamingAgreesWithIterator(tag: string, mapper: string -> string, f: FieldDecl, typ: FieldIterator.Type)
    ensures var g := FieldIterator.Field(f.name, f.tags, f.exported, typ);
            ParamName(tag, mapper, f) == FieldIterator.FieldName(FieldIterator.Config(tag, mapper), g)
            <==> tag !in f.tags || f.tags[tag] != "" || mapper(f.name) == ""
  {
    var g := FieldIterator.Field(f.name, f.tags, f.exported, typ);
    var n := FieldIterator.FieldName(FieldIterator.Config(tag, mapper), g);
    if tag in f.tags && f.tags[tag] == "" {
      assert n == mapper(f.name);
    }
  }

  /** The loop over the fields of one struct, from field `i` on: a field
      whose parameter is absent is skipped; a present parameter with no
      value panics on indexing; otherwise its first value is parsed into the
      (addressable) field, and a failure stops the loop with what the parse
      wrote kept. */
  function FillFrom(tag: string, mapper: string -> string, params: Params, fields: seq<FieldDecl>,
                    values: seq<Value>, i: nat, ext: Foreign): (r: (seq<Value>, Option<Failure>))
    requires |values| == |fields| && i <= |fields|
    ensures |r.0| == |fields|
    ensures forall j | 0 <= j < i :: r.0[j] == values[j]
    ensures forall j | i <= j < |fields| && ParamName(tag, mapper, fields[j]) !in params :: r.0[j] == values[j]
    ensures forall j | i <= j < |fields| && !fields[j].exported :: r.0[j] == values[j]
    decreases |fields| - i
  {
    if i == |fields| then (values, None)
    else
      var name := ParamName(tag, mapper, fields[i]);
      if name !in params then FillFrom(tag, mapper, params, fields, values, i + 1, ext)
      else if |params[name]| == 0 then (values, Some(IndexOutOfRange))
      else
        var o := ValueParse.ParseInto(params[name][0], values[i], true, fields[i].exported, ext);
        if o.err.Some? then (values[i := o.value], o.err)
        else FillFrom(tag, mapper, params, fields, values[i := o.value], i + 1, ext)
  }

  /** Whether some field of a struct names a present parameter. */
  predicate AnyMatch(tag: string, mapper: string -> string, params: Params, fields: seq<FieldDecl>) {
    exists j | 0 <= j < |fields| :: ParamName(tag, mapper, fields[j]) in params
  }

  /** The structs the targets point to. */
  function Objects(targets: seq<Target>): set<Record> {
    set t | t in targets && t.PointerTo? :: t.obj
  }

  /** Every struct a target points to has a value per field in `store`. */
  predicate Covers(targets: seq<Target>, store: map<Record, seq<Value>>) {
    forall t | t in targets && t.PointerTo? :: t.obj in store && |store[t.obj]| == |t.obj.fields|
  }

  /** The loop over the targets, on the field values of every struct involved
      (`store`), so that two targets pointing to one struct see each other's
      writes. It stops at the first target that is not a pointer (errNoPtr),
      at the panics reflect raises for a nil interface, a pointer to a
      non-struct and a nil struct pointer with a matching field, and at the
      first failed field. */
  function ReadSpec(tag: string, mapper: string -> string, params: Params, targets: seq<Target>,
                    store: map<Record, seq<Value>>, ext: Foreign): (r: (map<Record, seq<Value>>, Option<Failure>))
    requires Covers(targets, store)
    ensures r.0.Keys == store.Keys && forall o | o in store :: |r.0[o]| == |store[o]|
    ensures forall o | o in store && o !in Objects(targets) :: r.0[o] == store[o]
    ensures r.1.None? ==> forall t | t in targets :: t.PointerTo? || t.NilStructPointer?
    decreases |targets|
  {
    if targets == [] then (store, None)
    else
      assert targets[0] in targets;
      assert forall t | t in targets[1..] :: t in targets;
      match targets[0]
      case NilInterface => (store, Some(NilTarget))
      case NonPointer => (store, Some(NoPtr))
      case PointerToNonStruct => (store, Some(NotAStruct))
      case NilStructPointer(fields) =>
        if AnyMatch(tag, mapper, params, fields) then (store, Some(NilStruct))
        else ReadSpec(tag, mapper, params, targets[1..], store, ext)
      case PointerTo(obj) =>
        var filled := FillFrom(tag, mapper, params, obj.fields, store[obj], 0, ext);
        var next := store[obj := filled.0];
        if filled.1.Some? then (next, filled.1)
        else ReadSpec(tag, mapper, params, targets[1..], next, ext)
  }

  // ---------------------------------------------------------------------
  // Properties of Read

  /** Reading two runs of targets is reading the first and, unless that
      failed, the second on what the first left. */
  lemma {:induction false} ReadConcat(tag: string, mapper: string -> string, params: Params, a: seq<Target>, b: seq<Target>,
                                      store: map<Record, seq<Value>>, ext: Foreign)
    requires Covers(a + b, store)
    ensures Covers(a, store)
    ensures var ra := ReadSpec(tag, mapper, params, a, store, ext);
            Covers(b, ra.0) &&
            ReadSpec(tag, mapper, params, a + b, store, ext) ==
              if ra.1.Some? then ra else ReadSpec(tag, mapper, params, b, ra.0, ext)
    decreases |a|
  {
    assert forall t | t in a :: t in a + b;
    assert forall t | t in b :: t in a + b;
    var ra := ReadSpec(tag, mapper, params, a, store, ext);
    if a == [] {
      assert a + b == b;
    } else {
      assert (a + b)[0] == a[0] && (a + b)[1..] == a[1..] + b;
      assert forall t | t in a[1..] + b :: t in a + b;
      match a[0]
      case NilStructPointer(fields) =>
        if !AnyMatch(tag, mapper, params, fields) {
          ReadConcat(tag, mapper, params, a[1..], b, store, ext);
        }
      case PointerTo(obj) =>
        assert a[0] in a + b;
        var filled := FillFrom(tag, mapper, params, obj.fields, store[obj], 0, ext);
        var next := store[obj := filled.0];
        assert Covers(a[1..] + b, next);
        if filled.1.None? {
          ReadConcat(tag, mapper, params, a[1..], b, next, ext);
        }
      case _ =>
    }
  }

  /** Read returns errNoPtr at the first target that is not a pointer when
      the targets before it were read without failure: what they wrote is
      kept and the targets after it are not looked at. */
  lemma StopsAtNonPointer(tag: string, mapper: string -> string, params: Params, before: seq<Target>, after: seq<Target>,
                          store: map<Record, seq<Value>>, ext: Foreign)
    requires Covers(before + [NonPointer] + after, store)
    requires Covers(before, store) && ReadSpec(tag, mapper, params, before, store, ext).1.None?
    ensures ReadSpec(tag, mapper, params, before + [NonPointer] + after, store, ext) ==
              (ReadSpec(tag, mapper, params, before, store, ext).0, Some(NoPtr))
  {
    assert before + [NonPointer] + after == before + ([NonPointer] + after);
    ReadConcat(tag, mapper, params, before, [NonPointer] + after, store, ext);
  }

  /** Only the first value of a parameter matters: two parameter maps with
      the same keys, the same empty lists and the same first values fill a
      struct the same way. */
  lemma {:induction false} FirstValueOnly(tag: string, mapper: string -> string, p: Params, q: Params, fields: seq<FieldDecl>,
                                          values: seq<Value>, i: nat, ext: Foreign)
    requires |values| == |fields| && i <= |fields|
    requires p.Keys == q.Keys
    requires forall k | k in p :: (|p[k]| == 0 <==> |q[k]| == 0) && (|p[k]| > 0 ==> p[k][0] == q[k][0])
    ensures FillFrom(tag, mapper, p, fields, values, i, ext) == FillFrom(tag, mapper, q, fields, values, i, ext)
    decreases |fields| - i
  {
    if i < |fields| {
      var name := ParamName(tag, mapper, fields[i]);
      if name !in p {
        FirstValueOnly(tag, mapper, p, q, fields, values, i + 1, ext);
      } else if |p[name]| > 0 {
        var o := ValueParse.ParseInto(p[name][0], values[i], true, fields[i].exported, ext);
        FirstValueOnly(tag, mapper, p, q, fields, values[i := o.value], i + 1, ext);
      }
    }
  }

  /** Read does not descend into nested structs: a field of struct kind
      without an UnmarshalText method whose parameter is present makes the
      kind switch of ParseInto panic with ErrUnsupportedType, and nothing is
      written. */
  lemma NestedStructFails(tag: string, mapper: string -> string, params: Params, fields: seq<FieldDecl>,
                          values: seq<Value>, i: nat, ext: Foreign)
    requires |values| == |fields| && i < |fields|
    requires KindOf(values[i]) == Struct && !values[i].caps.own && fields[i].exported
    requires var name := ParamName(tag, mapper, fields[i]); name in params && |params[name]| > 0
    ensures FillFrom(tag, mapper, params, fields, values, i, ext) == (values, Some(UnsupportedType))
  {
    var name := ParamName(tag, mapper, fields[i]);
    var o := ValueParse.ParseInto(params[name][0], values[i], true, true, ext);
    assert o == Outcome(values[i], Some(UnsupportedType));
    assert values[i := values[i]] == values;
  }

  /** A matched exported string field receives the first value of its
      parameter, unchanged, whatever the fields after it do. */
  lemma StringFieldGetsFirstValue(tag: string, mapper: string -> string, params: Params, fields: seq<FieldDecl>,
                                  values: seq<Value>, i: nat, ext: Foreign)
    requires |values| == |fields| && i < |fields|
    requires KindOf(values[i]) == String && !values[i].caps.own && fields[i].exported
    requires var name := ParamName(tag, mapper, fields[i]); name in params && |params[name]| > 0
    ensures var name := ParamName(tag, mapper, fields[i]);
            FillFrom(tag, mapper, params, fields, values, i, ext).0[i] == Value(StringD(params[name][0]), values[i].caps)
  {
    var name := ParamName(tag, mapper, fields[i]);
    var o := ValueParse.ParseInto(params[name][0], values[i], true, true, ext);
    assert o == Outcome(Value(StringD(params[name][0]), values[i].caps), None);
  }

  /** With no parameters nothing matches: every target that is a pointer to
      a struct, nil or not, is left as it is and Read returns nil. */
  lemma {:induction false} NoParamsNoWrites(tag: string, mapper: string -> string, targets: seq<Target>,
                                            store: map<Record, seq<Value>>, ext: Foreign)
    requires Covers(targets, store)
    requires forall t | t in targets :: t.PointerTo? || t.NilStructPointer?
    ensures ReadSpec(tag, mapper, map[], targets, store, ext) == (store, None)
    decreases |targets|
  {
    if targets != [] {
      assert targets[0] in targets;
      assert forall t | t in targets[1..] :: t in targets;
      match targets[0]
      case PointerTo(obj) =>
        NothingToFill(tag, mapper, obj.fields, store[obj], 0, ext);
        assert store[obj := store[obj]] == store;
        NoParamsNoWrites(tag, mapper, targets[1..], store, ext);
      case NilStructPointer(fields) =>
        NoParamsNoWrites(tag, mapper, targets[1..], store, ext);
    }
  }

  lemma {:induction false} NothingToFill(tag: string, mapper: string -> string, fields: seq<FieldDecl>,
                                         values: seq<Value>, i: nat, ext: Foreign)
    requires |values| == |fields| && i <= |fields|
    ensures FillFrom(tag, mapper, map[], fields, values, i, ext) == (values, None)
    decreases |fields| - i
  {
    if i < |fields| {
      NothingToFill(tag, mapper, fields, values, i + 1, ext);
    }
  }

  // ---------------------------------------------------------------------
  // The reader

  class Reader {
    var tag: string
    var mapper: string -> string

    /** New, with strings.ToLower as a parameter. */
    constructor New(toLower: string -> string, options: seq<ReaderOption>)
      ensures (tag, mapper) == Configure(options, DefaultTag, toLower)
    {
      tag := DefaultTag;
      mapper := toLower;
      new;
      for i := 0 to |options|
        invariant Configure(options[i..], tag, mapper) == Configure(options, DefaultTag, toLower)
      {
        assert options[i..][1..] == options[i + 1..];
        match options[i]
        case MapperOption(m) => mapper := m;
        case TagOption(t) => tag := t;
      }
    }

    /** The field values of the structs the targets point to. */
    ghost function Contents(targets: seq<Target>): (m: map<Record, seq<Value>>)
      reads Objects(targets)
      ensures m.Keys == Objects(targets)
      ensures forall o | o in m :: m[o] == o.values
    {
      map o | o in Objects(targets) :: o.values
    }

    /** Read: fills every target in turn and returns nil, unless a target
        is not a pointer or a panic stops it; the failure is returned. */
    method Read(params: Params, targets: seq<Target>, ext: Foreign) returns (err: Option<Failure>)
      requires forall t | t in targets && t.PointerTo? :: |t.obj.values| == |t.obj.fields|
      modifies Objects(targets)
      ensures var r := ReadSpec(tag, mapper, params, targets, old(Contents(targets)), ext);
              err == r.1 && forall o | o in Objects(targets) :: o.values == r.0[o]
    {
      ghost var spec := ReadSpec(tag, mapper, params, targets, Contents(targets), ext);
      for i := 0 to |targets|
        invariant forall t | t in targets && t.PointerTo? :: |t.obj.values| == |t.obj.fields|
        invariant ReadSpec(tag, mapper, params, targets[i..], Contents(targets), ext) == spec
      {
        var stop;
        stop, err := ReadTarget(params, targets, i, ext);
        if stop {
          return;
        }
      }
      err := None;
    }

    /** One turn of Read's loop, on targets[i]: whether it stops there, with
        which failure, or goes on with the rest of the targets. */
    method ReadTarget(params: Params, targets: seq<Target>, i: nat, ext: Foreign) returns (stop: bool, err: Option<Failure>)
      requires i < |targets|
      requires forall t | t in targets && t.PointerTo? :: |t.obj.values| == |t.obj.fields|
      modifies Objects(targets)
      ensures forall t | t in targets && t.PointerTo? :: |t.obj.values| == |t.obj.fields|
      ensures var r := ReadSpec(tag, mapper, params, targets[i..], old(Contents(targets)), ext);
              if stop then r == (Contents(targets), err)
              else r == ReadSpec(tag, mapper, params, targets[i + 1..], Contents(targets), ext)
    {
      assert targets[i] in targets;
      assert targets[i..][1..] == targets[i + 1..];
      stop, err := true, None;
      match targets[i]
      case NilInterface =>
        err := Some(NilTarget);
      case NonPointer =>
        err := Some(NoPtr);
      case PointerToNonStruct =>
        err := Some(NotAStruct);
      case NilStructPointer(fields) =>
        stop := FindMatch(params, fields);
        if stop {
          err := Some(NilStruct);
        }
      case PointerTo(obj) =>
        ghost var before := Contents(targets);
        err := ReadStruct(params, obj, ext);
        assert Contents(targets) == before[obj := obj.values];
        stop := err.Some?;
    }

    /** Whether some field names a present parameter, as the field loop
        finds out when the struct pointer is nil. */
    method FindMatch(params: Params, fields: seq<FieldDecl>) returns (b: bool)
      ensures b == AnyMatch(tag, mapper, params, fields)
    {
      for j := 0 to |fields|
        invariant forall k | 0 <= k < j :: ParamName(tag, mapper, fields[k]) !in params
      {
        if ParamName(tag, mapper, fields[j]) in params {
          return true;
        }
      }
      return false;
    }

    /** The field loop of Read for one struct. */
    method ReadStruct(params: Params, obj: Record, ext: Foreign) returns (err: Option<Failure>)
      requires |obj.values| == |obj.fields|
      modifies obj
      ensures (obj.values, err) == FillFrom(tag, mapper, params, obj.fields, old(obj.values), 0, ext)
    {
      for i := 0 to |obj.fields|
        invariant |obj.values| == |obj.fields|
        invariant FillFrom(tag, mapper, params, obj.fields, obj.values, i, ext) ==
                  FillFrom(tag, mapper, params, obj.fields, old(obj.values), 0, ext)
      {
        var field := obj.fields[i];
        var name := if tag in field.tags then field.tags[tag] else mapper(field.name);
        if name in params {
          var values := params[name];
          if |values| == 0 {
            return Some(IndexOutOfRange);
          }
          var o := ValueParse.ParseInto(values[0], obj.values[i], true, field.exported, ext);
          obj.values := obj.values[i := o.value];
          if o.err.Some? {
            return o.err;
          }
        }
      }
      return None;
    }
  }
}
