/** The field iterator of internal/iterator.go: a resumable depth-first,
    pre-order walk over the fields of a struct, which yields each eligible
    field's dotted path and a handle to it, descends into struct fields
    (following and, where nil, allocating pointers on the way), and can be
    told to skip the rest of the struct it has just entered.

    A struct type is a tree of field declarations. The walk depends only on
    that tree and the naming configuration, so its whole output is one pure
    function, `Items`; the `Iterator` class keeps its stack and index so that
    what it has not yet yielded is always a suffix of that sequence. */
module FieldIterator {
  import opened Wrappers
  import Values

  // ---------------------------------------------------------------------
  // Struct schemas

  /** The type of a field: a struct, a pointer, or anything else. */
  datatype Type =
    | Scalar(kind: Values.Kind)
    | Pointer(elem: Type)
    | Struct(st: StructType)

  datatype StructType = StructType(fields: seq<Field>)

  /** A field declaration: its Go name, its struct tag as key/value pairs,
      and whether it is exported. */
  datatype Field = Field(name: string, tag: map<string, string>, exported: bool, typ: Type)

  /** reflect.StructTag.Get: the value for a key, or "" when it is absent. */
  function TagGet(tag: map<string, string>, key: string): string {
    if key in tag then tag[key] else ""
  }

  /** The struct tag key and the mapper of field names the iterator uses. */
  datatype Config = Config(tag: string, mapper: string -> string)

  /** A field is visited when it is settable (exported, in an addressable
      struct) and its tag is not "-". */
  predicate Eligible(cfg: Config, f: Field, addr: bool) {
    addr && f.exported && TagGet(f.tag, cfg.tag) != "-"
  }

  /** A field's name in a path: its tag value, or the mapped Go name when
      the tag value is empty. */
  function FieldName(cfg: Config, f: Field): (n: string)
    ensures TagGet(f.tag, cfg.tag) != "" ==> n == TagGet(f.tag, cfg.tag)
    ensures TagGet(f.tag, cfg.tag) == "" ==> n == cfg.mapper(f.name)
  {
    var t := TagGet(f.tag, cfg.tag);
    if t == "" then cfg.mapper(f.name) else t
  }

  /** The type a handle to the field has after one pointer is followed. */
  function Deref(t: Type): Type {
    if t.Pointer? then t.elem else t
  }

  /** strings.Join */
  function Join(elems: seq<string>, sep: string): string {
    if |elems| == 0 then ""
    else if |elems| == 1 then elems[0]
    else elems[0] + sep + Join(elems[1..], sep)
  }

  /** The field a path of field indexes leads to from a struct, descending
      through struct fields and pointers to structs. */
  function FieldAtPath(st: StructType, p: seq<nat>): Option<Field>
    decreases st
  {
    if p == [] || p[0] >= |st.fields| then None
    else
      var f := st.fields[p[0]];
      if |p| == 1 then Some(f)
      else
        match f.typ
        case Struct(sub) => FieldAtPath(sub, p[1..])
        case Pointer(Struct(sub)) => FieldAtPath(sub, p[1..])
        case _ => None
  }

  // ---------------------------------------------------------------------
  // What the walk yields

  /** One yielded field: the names of the path to it, the indexes of the
      path to it, the type of the handle yielded (after a pointer is
      followed), and whether a pointer was followed. */
  datatype Item = Item(names: seq<string>, pos: seq<nat>, typ: Type, viaPointer: bool)

  /** The dotted path of an item. */
  function Path(x: Item): string {
    Join(x.names, ".")
  }

  /** A handle the iterator exposes: none yet, or a field (or the pointee of
      a pointer field) at a path of indexes, with the type it has. */
  datatype FieldHandle = NoField | FieldAt(pos: seq<nat>, typ: Type, pointee: bool)

  function HandleOf(x: Item): FieldHandle {
    FieldAt(x.pos, x.typ, x.viaPointer)
  }

  /** The items of the fields of `st` from index `i` on, in a struct at
      index path `pos` whose own path names are `names`: each eligible field
      in declaration order, followed at once by the items of its struct (or
      the struct its pointer leads to). `addr` says whether the struct is
      addressable; every struct reached by descending is. */
  function Items(cfg: Config, st: StructType, i: nat, pos: seq<nat>, names: seq<string>, addr: bool): seq<Item>
    decreases st, |st.fields| - i
  {
    if i >= |st.fields| then []
    else
      var f := st.fields[i];
      if !Eligible(cfg, f, addr) then Items(cfg, st, i + 1, pos, names, addr)
      else
        var n := FieldName(cfg, f);
        var rest := Items(cfg, st, i + 1, pos, names, addr);
        match f.typ
        case Struct(sub) =>
          [Item(names + [n], pos + [i], f.typ, false)] + Items(cfg, sub, 0, pos + [i], names + [n], true) + rest
        case Pointer(Struct(sub)) =>
          [Item(names + [n], pos + [i], Struct(sub), true)] + Items(cfg, sub, 0, pos + [i], names + [n], true) + rest
        case _ =>
          [Item(names + [n], pos + [i], Deref(f.typ), f.typ.Pointer?)] + rest
  }

  /** The items nested under a struct item. */
  function Subtree(cfg: Config, x: Item): seq<Item>
    requires x.typ.Struct?
  {
    Items(cfg, x.typ.st, 0, x.pos, x.names, true)
  }

  // ---------------------------------------------------------------------
  // The iterator's stack

  /** The struct being walked: its type, its index path, and whether it is
      addressable. */
  datatype Level = Level(st: StructType, pos: seq<nat>, addr: bool)

  /** parent: a struct being walked further up, the index of the field the
      walk descended through, and that field's name. */
  datatype Parent = Parent(current: Level, index: nat, name: string)

  /** The names on a parent stack, bottom first. */
  function Names(parents: seq<Parent>): (r: seq<string>)
    ensures |r| == |parents|
  {
    if parents == [] then []
    else Names(parents[..|parents| - 1]) + [parents[|parents| - 1].name]
  }

  /** What the walk yields after the current struct is exhausted: the rest
      of each parent's struct, top of the stack first. */
  function Unwind(cfg: Config, parents: seq<Parent>): seq<Item>
    decreases |parents|
  {
    if parents == [] then []
    else
      var top := parents[|parents| - 1];
      var below := parents[..|parents| - 1];
      Items(cfg, top.current.st, top.index + 1, top.current.pos, Names(below), top.current.addr) + Unwind(cfg, below)
  }

  /** What the walk yields from field `index` of the struct `current` on,
      with `parents` on the stack. */
  function PendingOf(cfg: Config, current: Level, index: nat, parents: seq<Parent>): seq<Item> {
    Items(cfg, current.st, index, current.pos, Names(parents), current.addr) + Unwind(cfg, parents)
  }

  /** The pointer fields of a target that are not nil, by index path.
      reflect.New gives a pointer field a fresh zero struct: every pointer
      below it is nil. */
  function Allocate(nonNil: set<seq<nat>>, p: seq<nat>): (r: set<seq<nat>>)
    ensures p in r
    ensures forall q :: q in r && q != p ==> q in nonNil && !(p < q)
    ensures forall q :: q in nonNil && !(p < q) ==> q in r
  {
    (set q | q in nonNil && !(p < q)) + {p}
  }

  /** The allocation a yielded item causes: a nil pointer field is given a
      fresh value; anything else is left as it is. */
  function AllocateFor(nonNil: set<seq<nat>>, x: Item): set<seq<nat>> {
    if x.viaPointer && x.pos !in nonNil then Allocate(nonNil, x.pos) else nonNil
  }

  /** The struct value being walked, reduced to what the walk can change:
      which of its pointer fields are not nil. */
  class Target {
    const root: StructType
    const addressable: bool
    var nonNil: set<seq<nat>>

    constructor (root: StructType, addressable: bool, nonNil: set<seq<nat>>)
      ensures this.root == root && this.addressable == addressable && this.nonNil == nonNil
    {
      this.root := root;
      this.addressable := addressable;
      this.nonNil := nonNil;
    }
  }

  datatype State = ForwardRequired | Ok | Done

  class Iterator {
    const tag: string
    const mapper: string -> string
    const target: Target
    var current: Level
    var parents: seq<Parent>
    var index: nat
    var state: State
    var fieldValue: FieldHandle
    var fieldPath: string
    /** The item `forward` last prepared. */
    ghost var ready: Item

    function Cfg(): Config {
      Config(tag, mapper)
    }

    /** What the walk yields from the current position on. */
    function Pending(): seq<Item>
      reads `current, `parents, `index
    {
      PendingOf(Cfg(), current, index, parents)
    }

    /** What the iterator has still to hand out: the prepared item, if any,
        then the rest of the walk. */
    ghost function Remaining(): seq<Item>
      reads this
    {
      (if state == State.Ok then [ready] else []) + Pending()
    }

    ghost predicate Valid()
      reads this
    {
      (state == Done ==> parents == [] && index >= |current.st.fields|) &&
      (state == State.Ok ==> fieldPath == Path(ready) && fieldValue == HandleOf(ready)) &&
      (state == State.Ok && ready.typ.Struct? ==> Pending() == Subtree(Cfg(), ready) + Unwind(Cfg(), parents))
    }

    /** NewIterator, for a target already dereferenced to its struct. */
    constructor New(target: Target, tag: string, mapper: string -> string)
      ensures Valid()
      ensures this.target == target && this.tag == tag && this.mapper == mapper
      ensures state == ForwardRequired && parents == [] && fieldPath == ""
      ensures Remaining() == Items(Config(tag, mapper), target.root, 0, [], [], target.addressable)
    {
      this.tag := tag;
      this.mapper := mapper;
      this.target := target;
      current := Level(target.root, [], target.addressable);
      parents := [];
      index := 0;
      state := ForwardRequired;
      fieldValue := NoField;
      fieldPath := "";
    }

    /** HasNext: prepares the next item if none is prepared, and tells
        whether there is one. It does not consume it. */
    method HasNext() returns (b: bool)
      requires Valid()
      modifies this, target
      ensures Valid()
      ensures b <==> old(Remaining()) != []
      ensures Remaining() == old(Remaining())
      ensures state != ForwardRequired
      ensures target.nonNil ==
                if old(state) == ForwardRequired && b then AllocateFor(old(target.nonNil), Remaining()[0])
                else old(target.nonNil)
    {
      if state == ForwardRequired {
        state := Forward();
      }
      b := state != Done;
    }

    /** Next: hands out the next item's path and handle and consumes it.
        After the last item it hands out the last path again. After a
        struct item, what remains starts with that struct's own fields, and
        the rest of the stack holds exactly what follows them. */
    method Next() returns (path: string, value: FieldHandle)
      requires Valid()
      modifies this, target
      ensures Valid()
      ensures old(Remaining()) != [] ==>
                path == Path(old(Remaining())[0]) && value == HandleOf(old(Remaining())[0]) &&
                Remaining() == old(Remaining())[1..]
      ensures old(Remaining()) != [] && old(Remaining())[0].typ.Struct? ==>
                Remaining() == Subtree(Cfg(), old(Remaining())[0]) + Unwind(Cfg(), parents)
      ensures old(Remaining()) == [] ==> path == old(fieldPath) && Remaining() == []
      ensures target.nonNil ==
                if old(state) == ForwardRequired && old(Remaining()) != [] then AllocateFor(old(target.nonNil), old(Remaining())[0])
                else old(target.nonNil)
    {
      ghost var rem := Remaining();
      if state == ForwardRequired {
        state := Forward();
      }
      assert Remaining() == rem;
      if state == State.Ok {
        assert rem == [ready] + Pending();
        state := ForwardRequired;
        assert Remaining() == rem[1..];
      }
      return fieldPath, fieldValue;
    }

    /** SkipStruct: drops the rest of the current struct (and any prepared
        item), so the walk resumes after the field that led into it. */
    method SkipStruct()
      requires Valid()
      modifies this
      ensures Valid()
      ensures state == ForwardRequired && parents == old(parents) && current == old(current)
      ensures Remaining() == Unwind(Cfg(), parents)
    {
      state := ForwardRequired;
      index := |current.st.fields|;
    }

    /** forward: moves to the next eligible field, popping exhausted
        structs, allocating a nil pointer field, and entering a struct
        field; reports Done when the root struct is exhausted. */
    method Forward() returns (s: State)
      modifies this, target
      ensures state == old(state) && s != ForwardRequired
      ensures s == Done <==> old(Pending()) == []
      ensures s == Done ==>
                parents == [] && index >= |current.st.fields| &&
                fieldPath == old(fieldPath) && target.nonNil == old(target.nonNil)
      ensures s == State.Ok ==>
                old(Pending()) == [ready] + Pending() &&
                fieldPath == Path(ready) && fieldValue == HandleOf(ready) &&
                target.nonNil == AllocateFor(old(target.nonNil), ready) &&
                (ready.typ.Struct? ==> Pending() == Subtree(Cfg(), ready) + Unwind(Cfg(), parents))
    {
      ghost var pending, state0, path0, nonNil0 := Pending(), state, fieldPath, target.nonNil;
      while true
        invariant state == state0
        invariant PendingOf(Cfg(), current, index, parents) == pending
        invariant fieldPath == path0 && target.nonNil == nonNil0
        decreases |parents|, if index <= |current.st.fields| then |current.st.fields| - index else 0
      {
        if index >= |current.st.fields| {
          if |parents| > 0 {
            var parent := parents[|parents| - 1];
            PopParent(Cfg(), current, index, parents);
            current, index, parents := parent.current, parent.index + 1, parents[..|parents| - 1];
            continue;
          }
          return Done;
        }

        var eligible, fieldName := Examine();
        if !eligible {
          SkipField(Cfg(), current, index, parents);
          index := index + 1;
          continue;
        }
        Yield(fieldName);
        return State.Ok;
      }
    }

    /** The part of forward that looks at the field under the cursor:
        whether it is walked at all, and the name it gets in a path. */
    method Examine() returns (eligible: bool, fieldName: string)
      requires index < |current.st.fields|
      modifies this`fieldValue
      ensures eligible <==> Eligible(Cfg(), current.st.fields[index], current.addr)
      ensures eligible ==> fieldName == FieldName(Cfg(), current.st.fields[index])
    {
      var field := current.st.fields[index];
      fieldValue := FieldAt(current.pos + [index], field.typ, false);
      if !(current.addr && field.exported) {
        return false, "";
      }
      fieldName := TagGet(field.tag, tag);
      if fieldName == "-" {
        return false, fieldName;
      }
      if fieldName == "" {
        fieldName := mapper(field.name);
      }
      eligible := true;
    }

    /** The part of forward that handles an eligible field: allocate a nil
        pointer, compute the path, and enter a struct. */
    method Yield(fieldName: string)
      requires index < |current.st.fields|
      requires Eligible(Cfg(), current.st.fields[index], current.addr)
      requires fieldName == FieldName(Cfg(), current.st.fields[index])
      modifies this, target
      ensures state == old(state)
      ensures old(Pending()) == [ready] + Pending()
      ensures fieldPath == Path(ready) && fieldValue == HandleOf(ready)
      ensures target.nonNil == AllocateFor(old(target.nonNil), ready)
      ensures ready.typ.Struct? ==> Pending() == Subtree(Cfg(), ready) + Unwind(Cfg(), parents)
    {
      ghost var next := YieldStep(Cfg(), current, index, parents);
      Expose(fieldName, next.0);
      Advance(fieldName, next.0, next.1);
    }

    /** Forward's handling of the field under the cursor: allocate a nil
        pointer, then expose the field (or its pointee) and its path. */
    method Expose(fieldName: string, ghost x: Item)
      requires index < |current.st.fields|
      requires fieldName == FieldName(Cfg(), current.st.fields[index])
      requires x == ItemFor(Cfg(), current.st, index, current.pos, Names(parents))
      modifies target, `fieldValue, `fieldPath
      ensures fieldPath == Path(x) && fieldValue == HandleOf(x)
      ensures target.nonNil == AllocateFor(old(target.nonNil), x)
    {
      var field := current.st.fields[index];
      var pos := current.pos + [index];
      var typ := field.typ;
      if field.typ.Pointer? {
        AllocatePointer(pos);
        typ := field.typ.elem;
      }
      fieldValue := FieldAt(pos, typ, field.typ.Pointer?);
      SetPath(fieldName);
    }

    /** Forward's move past the field under the cursor: into its struct,
        pushing the current level, or on to the next field. */
    method Advance(fieldName: string, ghost x: Item, ghost rest: seq<Item>)
      requires index < |current.st.fields|
      requires fieldName == FieldName(Cfg(), current.st.fields[index])
      requires x == ItemFor(Cfg(), current.st, index, current.pos, Names(parents))
      requires x.typ.Struct? ==>
                 var top := Parent(current, index, fieldName);
                 rest == PendingOf(Cfg(), Level(x.typ.st, x.pos, true), 0, parents + [top]) &&
                 rest == Subtree(Cfg(), x) + Unwind(Cfg(), parents + [top])
      requires !x.typ.Struct? ==> rest == PendingOf(Cfg(), current, index + 1, parents)
      modifies `current, `index, `parents, `ready
      ensures ready == x && Pending() == rest
      ensures x.typ.Struct? ==> Pending() == Subtree(Cfg(), x) + Unwind(Cfg(), parents)
    {
      var typ := Deref(current.st.fields[index].typ);
      if typ.Struct? {
        current, index, parents := Level(typ.st, current.pos + [index], true), 0, parents + [Parent(current, index, fieldName)];
      } else {
        index := index + 1;
      }
      ready := x;
    }

    /** Gives a nil pointer field a fresh value. */
    method AllocatePointer(pos: seq<nat>)
      modifies target
      ensures target.nonNil == if pos in old(target.nonNil) then old(target.nonNil) else Allocate(old(target.nonNil), pos)
    {
      if pos !in target.nonNil {
        target.nonNil := Allocate(target.nonNil, pos);
      }
    }

    /** The dotted path of a field named `fieldName` at the current level. */
    method SetPath(fieldName: string)
      modifies `fieldPath
      ensures fieldPath == Join(Names(parents) + [fieldName], ".")
    {
      var names := PathNames();
      if |parents| > 0 {
        fieldPath := Join(names + [fieldName], ".");
      } else {
        fieldPath := fieldName;
      }
    }

    /** The names on the parent stack, collected bottom first. */
    method PathNames() returns (names: seq<string>)
      ensures names == Names(parents)
    {
      names := [];
      for k := 0 to |parents|
        invariant names == Names(parents[..k])
      {
        assert parents[..k + 1][..k] == parents[..k];
        names := names + [parents[k].name];
      }
      assert parents[..|parents|] == parents;
    }
  }

  /** One step of the walk at field `i`: an ineligible field yields
      nothing; an eligible one yields its item, then (for a struct) its
      struct's items, then the items of the following fields. */
  lemma ItemsStep(cfg: Config, st: StructType, i: nat, pos: seq<nat>, names: seq<string>, addr: bool)
    requires i < |st.fields|
    ensures var f := st.fields[i];
            var x := Item(names + [FieldName(cfg, f)], pos + [i], Deref(f.typ), f.typ.Pointer?);
            var rest := Items(cfg, st, i + 1, pos, names, addr);
            (!Eligible(cfg, f, addr) ==> Items(cfg, st, i, pos, names, addr) == rest) &&
            (Eligible(cfg, f, addr) && !x.typ.Struct? ==> Items(cfg, st, i, pos, names, addr) == [x] + rest) &&
            (Eligible(cfg, f, addr) && x.typ.Struct? ==> Items(cfg, st, i, pos, names, addr) == [x] + Subtree(cfg, x) + rest)
  {
  }

  /** An exhausted struct yields nothing more: what follows is the rest of
      the parent's struct. */
  lemma PopParent(cfg: Config, current: Level, index: nat, parents: seq<Parent>)
    requires index >= |current.st.fields| && parents != []
    ensures var top := parents[|parents| - 1];
            PendingOf(cfg, current, index, parents) == PendingOf(cfg, top.current, top.index + 1, parents[..|parents| - 1])
  {
  }

  /** A field forward passes over yields nothing. */
  lemma SkipField(cfg: Config, current: Level, index: nat, parents: seq<Parent>)
    requires index < |current.st.fields| && !Eligible(cfg, current.st.fields[index], current.addr)
    ensures PendingOf(cfg, current, index, parents) == PendingOf(cfg, current, index + 1, parents)
  {
    ItemsStep(cfg, current.st, index, current.pos, Names(parents), current.addr);
  }

  /** Pushing a parent adds its name and puts the rest of its struct in
      front of what the stack below it yields. */
  lemma PushParent(cfg: Config, parents: seq<Parent>, top: Parent)
    ensures Names(parents + [top]) == Names(parents) + [top.name]
    ensures Unwind(cfg, parents + [top]) ==
              Items(cfg, top.current.st, top.index + 1, top.current.pos, Names(parents), top.current.addr) + Unwind(cfg, parents)
  {
    assert (parents + [top])[..|parents|] == parents;
  }

  /** What forward does at an eligible field, on the walk: the field's item
      comes first; what follows is what the walk yields from the position
      forward leaves, which is inside the field's struct when it has one. */
  lemma YieldStep(cfg: Config, current: Level, index: nat, parents: seq<Parent>) returns (r: (Item, seq<Item>))
    requires index < |current.st.fields|
    requires Eligible(cfg, current.st.fields[index], current.addr)
    ensures var f := current.st.fields[index];
            var x := Item(Names(parents) + [FieldName(cfg, f)], current.pos + [index], Deref(f.typ), f.typ.Pointer?);
            r.0 == x &&
            PendingOf(cfg, current, index, parents) == [x] + r.1 &&
            (x.typ.Struct? ==>
               var top := Parent(current, index, FieldName(cfg, f));
               r.1 == PendingOf(cfg, Level(x.typ.st, x.pos, true), 0, parents + [top]) &&
               r.1 == Subtree(cfg, x) + Unwind(cfg, parents + [top])) &&
            (!x.typ.Struct? ==> r.1 == PendingOf(cfg, current, index + 1, parents))
  {
    var f := current.st.fields[index];
    var n := FieldName(cfg, f);
    var x := Item(Names(parents) + [n], current.pos + [index], Deref(f.typ), f.typ.Pointer?);
    if x.typ.Struct? {
      var top := Parent(current, index, n);
      YieldStruct(cfg, current, index, parents, x, top);
      r := (x, PendingOf(cfg, Level(x.typ.st, x.pos, true), 0, parents + [top]));
    } else {
      YieldOther(cfg, current, index, parents, x);
      r := (x, PendingOf(cfg, current, index + 1, parents));
    }
  }

  /** YieldStep at a field that is not a struct: its item, then the walk
      from the next field. */
  lemma YieldOther(cfg: Config, current: Level, index: nat, parents: seq<Parent>, x: Item)
    requires index < |current.st.fields|
    requires Eligible(cfg, current.st.fields[index], current.addr)
    requires var f := current.st.fields[index];
             x == Item(Names(parents) + [FieldName(cfg, f)], current.pos + [index], Deref(f.typ), f.typ.Pointer?)
    requires !x.typ.Struct?
    ensures PendingOf(cfg, current, index, parents) == [x] + PendingOf(cfg, current, index + 1, parents)
  {
    ItemsStep(cfg, current.st, index, current.pos, Names(parents), current.addr);
    var here := Items(cfg, current.st, index, current.pos, Names(parents), current.addr);
    var rest := Items(cfg, current.st, index + 1, current.pos, Names(parents), current.addr);
    assert here == [x] + rest;
    Regroup(here, [x], rest, Unwind(cfg, parents));
  }

  /** YieldStep at a struct field: its item, then its own fields, then the
      rest of the walk, which the pushed parent records. */
  lemma YieldStruct(cfg: Config, current: Level, index: nat, parents: seq<Parent>, x: Item, top: Parent)
    requires index < |current.st.fields|
    requires Eligible(cfg, current.st.fields[index], current.addr)
    requires var f := current.st.fields[index];
             x == Item(Names(parents) + [FieldName(cfg, f)], current.pos + [index], Deref(f.typ), f.typ.Pointer?) &&
             top == Parent(current, index, FieldName(cfg, f))
    requires x.typ.Struct?
    ensures PendingOf(cfg, current, index, parents) == [x] + PendingOf(cfg, Level(x.typ.st, x.pos, true), 0, parents + [top])
    ensures PendingOf(cfg, Level(x.typ.st, x.pos, true), 0, parents + [top]) == Subtree(cfg, x) + Unwind(cfg, parents + [top])
  {
    ItemsStep(cfg, current.st, index, current.pos, Names(parents), current.addr);
    PushParent(cfg, parents, top);
    var here := Items(cfg, current.st, index, current.pos, Names(parents), current.addr);
    var rest := Items(cfg, current.st, index + 1, current.pos, Names(parents), current.addr);
    var below := Subtree(cfg, x);
    assert here == [x] + below + rest;
    assert Unwind(cfg, parents + [top]) == rest + Unwind(cfg, parents);
    assert Names(parents + [top]) == x.names;
    Regroup(here, [x] + below, rest, Unwind(cfg, parents));
  }

  /** Regrouping a concatenation. */
  lemma Regroup(s: seq<Item>, a: seq<Item>, b: seq<Item>, c: seq<Item>)
    requires s == a + b
    ensures s + c == a + (b + c)
  {
  }

  // ---------------------------------------------------------------------
  // Properties of the walk

  /** An item describes the field `f` it was made from: the field is
      exported and not tagged "-", the item's last name is the field's name,
      and its handle is the field after one pointer is followed. */
  predicate Describes(cfg: Config, f: Option<Field>, x: Item) {
    f.Some? && Eligible(cfg, f.value, true) &&
    |x.names| > 0 && x.names[|x.names| - 1] == FieldName(cfg, f.value) &&
    x.typ == Deref(f.value.typ) && x.viaPointer == f.value.typ.Pointer?
  }

  /** Where an item of `Items(cfg, st, i, pos, names, _)` lies: strictly
      below `pos`, at a field of `st` numbered `i` or more, with one name per
      index, the names of the struct first, and describing the field its
      index path leads to. */
  predicate WellPlaced(cfg: Config, st: StructType, i: nat, pos: seq<nat>, names: seq<string>, x: Item) {
    |pos| < |x.pos| && |x.names| - |names| == |x.pos| - |pos| &&
    x.pos[..|pos|] == pos && |names| <= |x.names| && x.names[..|names|] == names &&
    x.pos[|pos|] >= i &&
    Describes(cfg, FieldAtPath(st, x.pos[|pos|..]), x)
  }

  lemma FieldAtPathStep(st: StructType, p: seq<nat>, sub: StructType)
    requires |p| >= 2 && p[0] < |st.fields|
    requires st.fields[p[0]].typ == Struct(sub) || st.fields[p[0]].typ == Pointer(Struct(sub))
    ensures FieldAtPath(st, p) == FieldAtPath(sub, p[1..])
  {
  }

  /** Every item the walk yields is a settable field not tagged "-", named
      by its tag or by the mapper, and reached through the structs above it
      (the names and indexes of the items that lead to it come first). */
  lemma {:induction false} ItemsWellPlaced(cfg: Config, st: StructType, i: nat, pos: seq<nat>, names: seq<string>, addr: bool)
    ensures forall x | x in Items(cfg, st, i, pos, names, addr) :: WellPlaced(cfg, st, i, pos, names, x)
    decreases st, |st.fields| - i
  {
    if i < |st.fields| {
      var f := st.fields[i];
      var rest := Items(cfg, st, i + 1, pos, names, addr);
      ItemsWellPlaced(cfg, st, i + 1, pos, names, addr);
      assert forall x | x in rest :: WellPlaced(cfg, st, i, pos, names, x);
      if Eligible(cfg, f, addr) {
        var n := FieldName(cfg, f);
        var x0 := Item(names + [n], pos + [i], Deref(f.typ), f.typ.Pointer?);
        assert x0.pos[|pos|..] == [i];
        assert x0.pos[..|pos|] == pos && x0.names[..|names|] == names;
        assert WellPlaced(cfg, st, i, pos, names, x0);
        match f.typ
        case Struct(sub) =>
          SubtreeWellPlaced(cfg, st, i, pos, names, sub);
        case Pointer(Struct(sub)) =>
          SubtreeWellPlaced(cfg, st, i, pos, names, sub);
        case _ =>
      }
    }
  }

  /** The items below a struct field of `st` are placed within `st`. */
  lemma {:induction false} SubtreeWellPlaced(cfg: Config, st: StructType, i: nat, pos: seq<nat>, names: seq<string>, sub: StructType)
    requires i < |st.fields|
    requires st.fields[i].typ == Struct(sub) || st.fields[i].typ == Pointer(Struct(sub))
    ensures var n := FieldName(cfg, st.fields[i]);
            forall y | y in Items(cfg, sub, 0, pos + [i], names + [n], true) :: WellPlaced(cfg, st, i, pos, names, y)
    decreases st, |st.fields| - i, 0
  {
    var n := FieldName(cfg, st.fields[i]);
    ItemsWellPlaced(cfg, sub, 0, pos + [i], names + [n], true);
    forall y | y in Items(cfg, sub, 0, pos + [i], names + [n], true)
      ensures WellPlaced(cfg, st, i, pos, names, y)
    {
      assert WellPlaced(cfg, sub, 0, pos + [i], names + [n], y);
      assert y.pos[..|pos| + 1] == pos + [i];
      assert y.pos[..|pos|] == (pos + [i])[..|pos|] == pos;
      assert y.names[..|names|] == (names + [n])[..|names|] == names;
      assert y.pos[|pos|] == i;
      FieldAtPathStep(st, y.pos[|pos|..], sub);
      assert y.pos[|pos|..][1..] == y.pos[|pos| + 1..];
    }
  }

  /** Pre-order on index paths: a path comes before every path it is a
      proper prefix of, and otherwise paths are ordered by the first index
      where they differ. */
  predicate Precedes(p: seq<nat>, q: seq<nat>) {
    if p == [] then q != []
    else q != [] && (p[0] < q[0] || (p[0] == q[0] && Precedes(p[1..], q[1..])))
  }

  /** Items in strict pre-order of their index paths. */
  predicate Sorted(items: seq<Item>) {
    forall a, b :: 0 <= a < b < |items| ==> Precedes(items[a].pos, items[b].pos)
  }

  lemma {:induction false} PrefixPrecedes(p: seq<nat>, q: seq<nat>)
    requires p < q
    ensures Precedes(p, q)
  {
    if p != [] {
      assert p[1..] < q[1..] by {
        assert q[..|p|] == p;
        assert q[1..][..|p| - 1] == p[1..];
      }
      PrefixPrecedes(p[1..], q[1..]);
    }
  }

  lemma {:induction false} ForkPrecedes(p: seq<nat>, q: seq<nat>, k: nat)
    requires k < |p| && k < |q| && p[..k] == q[..k] && p[k] < q[k]
    ensures Precedes(p, q)
  {
    if k > 0 {
      assert p[1..][..k - 1] == p[..k][1..] == q[..k][1..] == q[1..][..k - 1];
      ForkPrecedes(p[1..], q[1..], k - 1);
    }
  }

  lemma SortedConcat(a: seq<Item>, b: seq<Item>)
    requires Sorted(a) && Sorted(b)
    requires forall x, y | x in a && y in b :: Precedes(x.pos, y.pos)
    ensures Sorted(a + b)
  {
    var c := a + b;
    forall i, j | 0 <= i < j < |c|
      ensures Precedes(c[i].pos, c[j].pos)
    {
      if j < |a| {
        assert c[i] == a[i] && c[j] == a[j];
      } else if i >= |a| {
        assert c[i] == b[i - |a|] && c[j] == b[j - |a|];
      } else {
        assert c[i] in a && c[j] in b;
      }
    }
  }

  /** The walk yields fields in declaration order, depth first, each struct
      field before the fields inside it: their index paths are in strict
      pre-order. */
  lemma {:induction false} ItemsSorted(cfg: Config, st: StructType, i: nat, pos: seq<nat>, names: seq<string>, addr: bool)
    ensures Sorted(Items(cfg, st, i, pos, names, addr))
    decreases st, |st.fields| - i
  {
    if i < |st.fields| {
      var f := st.fields[i];
      var rest := Items(cfg, st, i + 1, pos, names, addr);
      ItemsSorted(cfg, st, i + 1, pos, names, addr);
      if Eligible(cfg, f, addr) {
        var n := FieldName(cfg, f);
        var x0 := Item(names + [n], pos + [i], Deref(f.typ), f.typ.Pointer?);
        ItemsWellPlaced(cfg, st, i + 1, pos, names, addr);
        match f.typ
        case Struct(sub) =>
          SubtreeSorted(cfg, st, i, pos, names, sub, x0, rest);
        case Pointer(Struct(sub)) =>
          SubtreeSorted(cfg, st, i, pos, names, sub, x0, rest);
        case _ =>
          forall z | z in rest ensures Precedes(x0.pos, z.pos) {
            assert WellPlaced(cfg, st, i + 1, pos, names, z);
            assert x0.pos[..|pos|] == pos;
            ForkPrecedes(x0.pos, z.pos, |pos|);
          }
          SortedConcat([x0], rest);
      }
    }
  }

  lemma {:induction false} SubtreeSorted(cfg: Config, st: StructType, i: nat, pos: seq<nat>, names: seq<string>,
                                         sub: StructType, x0: Item, rest: seq<Item>)
    requires i < |st.fields|
    requires st.fields[i].typ == Struct(sub) || st.fields[i].typ == Pointer(Struct(sub))
    requires x0.pos == pos + [i]
    requires rest == Items(cfg, st, i + 1, pos, names, true) || rest == Items(cfg, st, i + 1, pos, names, false)
    requires Sorted(rest)
    requires forall z | z in rest :: WellPlaced(cfg, st, i + 1, pos, names, z)
    ensures var n := FieldName(cfg, st.fields[i]);
            Sorted([x0] + Items(cfg, sub, 0, pos + [i], names + [n], true) + rest)
    decreases st, |st.fields| - i, 0
  {
    var n := FieldName(cfg, st.fields[i]);
    var inner := Items(cfg, sub, 0, pos + [i], names + [n], true);
    ItemsSorted(cfg, sub, 0, pos + [i], names + [n], true);
    ItemsWellPlaced(cfg, sub, 0, pos + [i], names + [n], true);
    forall y | y in inner ensures Precedes(x0.pos, y.pos) {
      assert WellPlaced(cfg, sub, 0, pos + [i], names + [n], y);
      assert y.pos[..|x0.pos|] == x0.pos;
      PrefixPrecedes(x0.pos, y.pos);
    }
    SortedConcat([x0], inner);
    forall y, z | y in [x0] + inner && z in rest ensures Precedes(y.pos, z.pos) {
      assert WellPlaced(cfg, st, i + 1, pos, names, z);
      if y != x0 {
        assert y in inner;
        assert WellPlaced(cfg, sub, 0, pos + [i], names + [n], y);
        assert y.pos[..|pos| + 1] == pos + [i];
      }
      assert y.pos[..|pos| + 1] == pos + [i];
      assert y.pos[..|pos|] == (pos + [i])[..|pos|] == pos;
      ForkPrecedes(y.pos, z.pos, |pos|);
    }
    SortedConcat([x0] + inner, rest);
  }

  /** The item the walk makes for the field numbered `j` of a struct. */
  function ItemFor(cfg: Config, st: StructType, j: nat, pos: seq<nat>, names: seq<string>): Item
    requires j < |st.fields|
  {
    var f := st.fields[j];
    Item(names + [FieldName(cfg, f)], pos + [j], Deref(f.typ), f.typ.Pointer?)
  }

  /** Every eligible field of a struct, from index `i` on, is yielded. */
  lemma {:induction false} ItemsComplete(cfg: Config, st: StructType, i: nat, pos: seq<nat>, names: seq<string>, addr: bool, j: nat)
    requires i <= j < |st.fields| && Eligible(cfg, st.fields[j], addr)
    ensures ItemFor(cfg, st, j, pos, names) in Items(cfg, st, i, pos, names, addr)
    decreases j - i
  {
    if i < j {
      ItemsComplete(cfg, st, i + 1, pos, names, addr, j);
      ItemsStep(cfg, st, i, pos, names, addr);
    } else {
      ItemsStep(cfg, st, i, pos, names, addr);
    }
  }

  /** The walk from field `i` on includes the walk from any later field `j`. */
  lemma {:induction false} ItemsSuffix(cfg: Config, st: StructType, i: nat, j: nat, pos: seq<nat>, names: seq<string>, addr: bool)
    requires i <= j
    ensures forall y | y in Items(cfg, st, j, pos, names, addr) :: y in Items(cfg, st, i, pos, names, addr)
    decreases j - i
  {
    if i < j && i < |st.fields| {
      ItemsSuffix(cfg, st, i + 1, j, pos, names, addr);
      ItemsStep(cfg, st, i, pos, names, addr);
    }
  }

  /** An index path from a struct that descends only through eligible
      struct fields (or pointers to structs) and ends at an eligible field:
      the fields the walk reaches at any depth. */
  predicate Reachable(cfg: Config, st: StructType, p: seq<nat>, addr: bool)
    decreases st
  {
    if p == [] || p[0] >= |st.fields| then false
    else
      var f := st.fields[p[0]];
      Eligible(cfg, f, addr) &&
      (|p| == 1 ||
       match f.typ
       case Struct(sub) => Reachable(cfg, sub, p[1..], true)
       case Pointer(Struct(sub)) => Reachable(cfg, sub, p[1..], true)
       case _ => false)
  }

  /** The item for the field a reachable path leads to: the names and
      indexes of every struct on the way, then the field's own. */
  function ItemAt(cfg: Config, st: StructType, p: seq<nat>, pos: seq<nat>, names: seq<string>, addr: bool): (x: Item)
    requires Reachable(cfg, st, p, addr)
    ensures x.pos == pos + p && |x.names| == |names| + |p|
    decreases st
  {
    var f := st.fields[p[0]];
    if |p| == 1 then ItemFor(cfg, st, p[0], pos, names)
    else
      var x := ItemAt(cfg, Deref(f.typ).st, p[1..], pos + [p[0]], names + [FieldName(cfg, f)], true);
      assert pos + [p[0]] + p[1..] == pos + p;
      x
  }

  /** Every eligible field at every depth is yielded: the walk of a struct
      contains the item of each reachable path. */
  lemma {:induction false} ItemsCompleteNested(cfg: Config, st: StructType, p: seq<nat>, pos: seq<nat>, names: seq<string>, addr: bool)
    requires Reachable(cfg, st, p, addr)
    ensures ItemAt(cfg, st, p, pos, names, addr) in Items(cfg, st, 0, pos, names, addr)
    decreases st
  {
    var j := p[0];
    var f := st.fields[j];
    if |p| == 1 {
      ItemsComplete(cfg, st, 0, pos, names, addr, j);
    } else {
      var x := ItemFor(cfg, st, j, pos, names);
      var sub := Deref(f.typ).st;
      ItemsCompleteNested(cfg, sub, p[1..], x.pos, x.names, true);
      ItemsStep(cfg, st, j, pos, names, addr);
      assert Items(cfg, st, j, pos, names, addr) == [x] + Subtree(cfg, x) + Items(cfg, st, j + 1, pos, names, addr);
      ItemsSuffix(cfg, st, 0, j, pos, names, addr);
    }
  }

  /** A struct that is not addressable has no settable field: nothing is
      yielded. */
  lemma {:induction false} UnaddressableYieldsNothing(cfg: Config, st: StructType, i: nat, pos: seq<nat>, names: seq<string>)
    ensures Items(cfg, st, i, pos, names, false) == []
    decreases |st.fields| - i
  {
    if i < |st.fields| {
      UnaddressableYieldsNothing(cfg, st, i + 1, pos, names);
    }
  }

  // ---------------------------------------------------------------------
  // The struct of internal/iterator_test.go

  const NoTag: map<string, string> := map[]

  const InnerC := StructType([Field("FieldG", NoTag, true, Pointer(Scalar(Values.String)))])

  const InnerB := StructType([
    Field("FieldF", NoTag, true, Scalar(Values.Float64)),
    Field("StructThree", NoTag, true, Struct(InnerC)),
    Field("FieldH", NoTag, true, Pointer(Scalar(Values.Float64)))])

  const InnerA := StructType([
    Field("FieldD", NoTag, true, Pointer(Scalar(Values.Int))),
    Field("FieldE", NoTag, true, Pointer(Scalar(Values.Bool)))])

  const Outer := StructType([
    Field("FieldA", NoTag, true, Scalar(Values.String)),
    Field("FiledB", NoTag, true, Scalar(Values.Int)),
    Field("C", map["param" := "field_c"], true, Scalar(Values.Bool)),
    Field("Skip", map["param" := "-"], true, Scalar(Values.Int)),
    Field("One", map["param" := "struct_one"], true, Pointer(Struct(InnerA))),
    Field("StructTwo", NoTag, true, Struct(InnerB))])

  /** What strcase.SnakeCase does to the Go names of the test struct. */
  predicate SnakeCaseOnTestNames(mapper: string -> string) {
    mapper("FieldA") == "field_a" && mapper("FiledB") == "filed_b" &&
    mapper("StructTwo") == "struct_two" && mapper("FieldD") == "field_d" &&
    mapper("FieldE") == "field_e" && mapper("FieldF") == "field_f" &&
    mapper("StructThree") == "struct_three" && mapper("FieldG") == "field_g" &&
    mapper("FieldH") == "field_h"
  }

  function Paths(items: seq<Item>): (r: seq<string>)
    ensures |r| == |items|
    ensures forall i | 0 <= i < |items| :: r[i] == Path(items[i])
  {
    if items == [] then [] else [Path(items[0])] + Paths(items[1..])
  }

  function TestCfg(mapper: string -> string): Config {
    Config("param", mapper)
  }

  const ItemG := Item(["struct_two", "struct_three", "field_g"], [5, 1, 0], Scalar(Values.String), true)
  const ItemF := Item(["struct_two", "field_f"], [5, 0], Scalar(Values.Float64), false)
  const ItemThree := Item(["struct_two", "struct_three"], [5, 1], Struct(InnerC), false)
  const ItemH := Item(["struct_two", "field_h"], [5, 2], Scalar(Values.Float64), true)
  const ItemD := Item(["struct_one", "field_d"], [4, 0], Scalar(Values.Int), true)
  const ItemE := Item(["struct_one", "field_e"], [4, 1], Scalar(Values.Bool), true)
  const ItemOne := Item(["struct_one"], [4], Struct(InnerA), true)
  const ItemTwo := Item(["struct_two"], [5], Struct(InnerB), false)

  lemma InnerCItems(mapper: string -> string)
    requires SnakeCaseOnTestNames(mapper)
    ensures Subtree(TestCfg(mapper), ItemThree) == [ItemG]
  {
    var cfg := TestCfg(mapper);
    ItemsStep(cfg, InnerC, 0, [5, 1], ["struct_two", "struct_three"], true);
    var pc: seq<nat> := [5, 1];
    assert pc + [0] == [5, 1, 0];
    assert ItemFor(cfg, InnerC, 0, [5, 1], ["struct_two", "struct_three"]) == ItemG;
    assert Items(cfg, InnerC, 1, [5, 1], ["struct_two", "struct_three"], true) == [];
  }

  lemma InnerBItems(mapper: string -> string)
    requires SnakeCaseOnTestNames(mapper)
    ensures Subtree(TestCfg(mapper), ItemTwo) == [ItemF, ItemThree, ItemG, ItemH]
  {
    var cfg := TestCfg(mapper);
    InnerCItems(mapper);
    ItemsStep(cfg, InnerB, 2, [5], ["struct_two"], true);
    ItemsStep(cfg, InnerB, 1, [5], ["struct_two"], true);
    ItemsStep(cfg, InnerB, 0, [5], ["struct_two"], true);
    var pb: seq<nat> := [5];
    assert pb + [0] == [5, 0] && pb + [1] == [5, 1] && pb + [2] == [5, 2];
    assert ItemFor(cfg, InnerB, 0, [5], ["struct_two"]) == ItemF;
    assert ItemFor(cfg, InnerB, 1, [5], ["struct_two"]) == ItemThree;
    assert ItemFor(cfg, InnerB, 2, [5], ["struct_two"]) == ItemH;
    assert Items(cfg, InnerB, 3, [5], ["struct_two"], true) == [];
  }

  lemma InnerAItems(mapper: string -> string)
    requires SnakeCaseOnTestNames(mapper)
    ensures Subtree(TestCfg(mapper), ItemOne) == [ItemD, ItemE]
  {
    var cfg := TestCfg(mapper);
    ItemsStep(cfg, InnerA, 1, [4], ["struct_one"], true);
    ItemsStep(cfg, InnerA, 0, [4], ["struct_one"], true);
    var pa: seq<nat> := [4];
    assert pa + [0] == [4, 0] && pa + [1] == [4, 1];
    assert ItemFor(cfg, InnerA, 0, [4], ["struct_one"]) == ItemD;
    assert ItemFor(cfg, InnerA, 1, [4], ["struct_one"]) == ItemE;
    assert Items(cfg, InnerA, 2, [4], ["struct_one"], true) == [];
  }

  lemma OuterTailItems(mapper: string -> string)
    requires SnakeCaseOnTestNames(mapper)
    ensures Items(TestCfg(mapper), Outer, 3, [], [], true) ==
              [ItemOne, ItemD, ItemE, ItemTwo, ItemF, ItemThree, ItemG, ItemH]
  {
    var cfg := TestCfg(mapper);
    InnerAItems(mapper);
    InnerBItems(mapper);
    ItemsStep(cfg, Outer, 5, [], [], true);
    ItemsStep(cfg, Outer, 4, [], [], true);
    ItemsStep(cfg, Outer, 3, [], [], true);
    var po: seq<nat> := [];
    assert po + [4] == [4] && po + [5] == [5];
    assert ItemFor(cfg, Outer, 4, [], []) == ItemOne;
    assert ItemFor(cfg, Outer, 5, [], []) == ItemTwo;
    assert Items(cfg, Outer, 6, [], [], true) == [];
  }

  const ItemA := Item(["field_a"], [0], Scalar(Values.String), false)
  const ItemB := Item(["filed_b"], [1], Scalar(Values.Int), false)
  const ItemC := Item(["field_c"], [2], Scalar(Values.Bool), false)

  /** One eligible scalar field of the test struct, at the root. */
  lemma OuterScalarStep(mapper: string -> string, i: nat, x: Item)
    requires SnakeCaseOnTestNames(mapper) && i < 3
    requires x == [ItemA, ItemB, ItemC][i]
    ensures Items(TestCfg(mapper), Outer, i, [], [], true) == [x] + Items(TestCfg(mapper), Outer, i + 1, [], [], true)
  {
    var cfg := TestCfg(mapper);
    ItemsStep(cfg, Outer, i, [], [], true);
    var po: seq<nat> := [];
    assert po + [i] == [i];
    assert ItemFor(cfg, Outer, i, [], []) == x;
  }

  lemma PrependThree(s0: seq<Item>, s1: seq<Item>, s2: seq<Item>, s3: seq<Item>, a: Item, b: Item, c: Item)
    requires s0 == [a] + s1 && s1 == [b] + s2 && s2 == [c] + s3
    ensures s0 == [a, b, c] + s3
  {
  }

  /** The items of the test struct, the field tagged "-" left out. */
  lemma OuterItems(mapper: string -> string)
    requires SnakeCaseOnTestNames(mapper)
    ensures Items(TestCfg(mapper), Outer, 0, [], [], true) ==
              [ItemA, ItemB, ItemC, ItemOne, ItemD, ItemE, ItemTwo, ItemF, ItemThree, ItemG, ItemH]
  {
    OuterHeadItems(mapper);
    OuterTailItems(mapper);
  }

  /** The three scalar fields at the root come first. */
  lemma OuterHeadItems(mapper: string -> string)
    requires SnakeCaseOnTestNames(mapper)
    ensures Items(TestCfg(mapper), Outer, 0, [], [], true) ==
              [ItemA, ItemB, ItemC] + Items(TestCfg(mapper), Outer, 3, [], [], true)
  {
    var cfg := TestCfg(mapper);
    OuterScalarStep(mapper, 2, ItemC);
    OuterScalarStep(mapper, 1, ItemB);
    OuterScalarStep(mapper, 0, ItemA);
    PrependThree(Items(cfg, Outer, 0, [], [], true), Items(cfg, Outer, 1, [], [], true),
                 Items(cfg, Outer, 2, [], [], true), Items(cfg, Outer, 3, [], [], true), ItemA, ItemB, ItemC);
  }

  lemma {:induction false} PathsConcat(a: seq<Item>, b: seq<Item>)
    ensures Paths(a + b) == Paths(a) + Paths(b)
  {
    if a == [] {
      assert a + b == b;
    } else {
      assert (a + b)[1..] == a[1..] + b;
      PathsConcat(a[1..], b);
    }
  }

  /** The paths of the root fields and of struct_one's fields. */
  lemma HeadPathValues()
    ensures Path(ItemA) == "field_a" && Path(ItemB) == "filed_b" && Path(ItemC) == "field_c"
    ensures Path(ItemOne) == "struct_one"
    ensures Path(ItemD) == "struct_one.field_d" && Path(ItemE) == "struct_one.field_e"
  {
    JoinTwo("struct_one", "field_d");
    JoinTwo("struct_one", "field_e");
  }

  /** The paths of struct_two and of the fields below it. */
  lemma TailPathValues()
    ensures Path(ItemTwo) == "struct_two" && Path(ItemF) == "struct_two.field_f"
    ensures Path(ItemThree) == "struct_two.struct_three" && Path(ItemH) == "struct_two.field_h"
    ensures Path(ItemG) == "struct_two.struct_three.field_g"
  {
    JoinTwo("struct_two", "field_f");
    JoinTwo("struct_two", "struct_three");
    JoinTwo("struct_two", "field_h");
    JoinTwo("struct_three", "field_g");
    assert Join(ItemG.names, ".") == "struct_two" + "." + Join(["struct_three", "field_g"], ".") by {
      assert ItemG.names[1..] == ["struct_three", "field_g"];
    }
  }

  lemma JoinTwo(a: string, b: string)
    ensures Join([a, b], ".") == a + "." + b
  {
    assert [a, b][1..] == [b];
  }

  /** The paths of the eleven items of the test struct. */
  lemma TestItemPaths()
    ensures Paths([ItemA, ItemB, ItemC, ItemOne, ItemD, ItemE, ItemTwo, ItemF, ItemThree, ItemG, ItemH]) ==
              ["field_a", "filed_b", "field_c", "struct_one", "struct_one.field_d", "struct_one.field_e",
               "struct_two", "struct_two.field_f", "struct_two.struct_three", "struct_two.struct_three.field_g",
               "struct_two.field_h"]
  {
    HeadPathValues();
    TailPathValues();
  }

  /** The walk over the test struct yields the eleven paths the iterator
      tests expect, in order. */
  lemma TestStructPaths(mapper: string -> string)
    requires SnakeCaseOnTestNames(mapper)
    ensures Paths(Items(TestCfg(mapper), Outer, 0, [], [], true)) ==
              ["field_a", "filed_b", "field_c", "struct_one", "struct_one.field_d", "struct_one.field_e",
               "struct_two", "struct_two.field_f", "struct_two.struct_three", "struct_two.struct_three.field_g",
               "struct_two.field_h"]
  {
    OuterItems(mapper);
    TestItemPaths();
  }

  // ---------------------------------------------------------------------
  // Clients

  /** One round of the loop below: HasNext, and Next when it said yes. */
  method TakeOne(it: Iterator) returns (more: bool, path: string)
    requires it.Valid()
    modifies it, it.target
    ensures it.Valid()
    ensures more <==> old(it.Remaining()) != []
    ensures more ==> path == Path(old(it.Remaining())[0]) && it.Remaining() == old(it.Remaining())[1..]
    ensures !more ==> it.Remaining() == []
  {
    more := it.HasNext();
    path := "";
    if more {
      var handle;
      path, handle := it.Next();
    }
  }

  /** The loop of the iterator tests: while HasNext, take Next. It collects
      the paths of everything the iterator had still to hand out, in order. */
  method Drain(it: Iterator) returns (paths: seq<string>)
    requires it.Valid()
    modifies it, it.target
    ensures paths == Paths(old(it.Remaining()))
    ensures it.Valid() && it.Remaining() == []
  {
    paths := [];
    ghost var taken: seq<Item> := [];
    ghost var rest := it.Remaining();
    var more := true;
    while more
      invariant it.Valid()
      invariant old(it.Remaining()) == taken + rest && paths == Paths(taken)
      invariant more ==> it.Remaining() == rest
      invariant !more ==> rest == [] && it.Remaining() == []
      decreases |rest|, more
    {
      var path;
      more, path := TakeOne(it);
      if more {
        TakeStep(taken, rest);
        paths, taken, rest := paths + [path], taken + [rest[0]], rest[1..];
      }
    }
    assert taken + [] == taken;
  }

  /** Moving the first item of what is left to what has been taken. */
  lemma TakeStep(taken: seq<Item>, rest: seq<Item>)
    requires rest != []
    ensures Paths(taken + [rest[0]]) == Paths(taken) + [Path(rest[0])]
    ensures (taken + [rest[0]]) + rest[1..] == taken + rest
  {
    PathsConcat(taken, [rest[0]]);
    assert [rest[0]] + rest[1..] == rest;
  }

  /** The paths the HasNext test of internal/iterator_test.go collects. */
  method HasNextTest(mapper: string -> string) returns (paths: seq<string>)
    requires SnakeCaseOnTestNames(mapper)
    ensures paths ==
              ["field_a", "filed_b", "field_c", "struct_one", "struct_one.field_d", "struct_one.field_e",
               "struct_two", "struct_two.field_f", "struct_two.struct_three", "struct_two.struct_three.field_g",
               "struct_two.field_h"]
  {
    var t := new Target(Outer, true, {});
    var it := new Iterator.New(t, "param", mapper);
    TestStructPaths(mapper);
    paths := Drain(it);
  }

  /** Next when an item remains, without the handle. */
  method NextPath(it: Iterator) returns (path: string)
    requires it.Valid() && it.Remaining() != []
    modifies it, it.target
    ensures it.Valid()
    ensures path == Path(old(it.Remaining())[0]) && it.Remaining() == old(it.Remaining())[1..]
    ensures old(it.Remaining())[0].typ.Struct? ==>
              it.Remaining() == Subtree(it.Cfg(), old(it.Remaining())[0]) + Unwind(it.Cfg(), it.parents)
  {
    var handle;
    path, handle := it.Next();
  }

  /** `n` Next calls whose results are dropped. */
  method Advance(it: Iterator, n: nat)
    requires it.Valid() && n <= |it.Remaining()|
    modifies it, it.target
    ensures it.Valid() && it.Remaining() == old(it.Remaining())[n..]
  {
    ghost var all := it.Remaining();
    for k := 0 to n
      invariant it.Valid() && it.Remaining() == all[k..]
    {
      var path := NextPath(it);
      assert all[k..][1..] == all[k + 1..];
    }
  }

  /** The skip test of internal/iterator_test.go: skipping after
      "struct_one" resumes at "struct_two", and skipping twice after
      "struct_two.struct_three" resumes at "struct_two.field_h". */
  method SkipTest(mapper: string -> string) returns (first: string, second: string, third: string)
    requires SnakeCaseOnTestNames(mapper)
    ensures first == "struct_one" && second == "struct_two.struct_three" && third == "struct_two.field_h"
  {
    var t := new Target(Outer, true, {});
    var it := new Iterator.New(t, "param", mapper);
    OuterItems(mapper);
    first := SkipStructOne(it);
    second, third := SkipStructThree(it);
  }

  /** Four Next calls and a skip on a fresh iterator over the test struct. */
  method SkipStructOne(it: Iterator) returns (name: string)
    requires it.Valid() && SnakeCaseOnTestNames(it.mapper) && it.Cfg() == TestCfg(it.mapper)
    requires it.Remaining() == [ItemA, ItemB, ItemC, ItemOne, ItemD, ItemE, ItemTwo, ItemF, ItemThree, ItemG, ItemH]
    modifies it, it.target
    ensures it.Valid() && it.Remaining() == [ItemTwo, ItemF, ItemThree, ItemG, ItemH]
    ensures name == "struct_one"
  {
    InnerAItems(it.mapper);
    HeadPathValues();
    ghost var all := it.Remaining();
    Advance(it, 3);
    assert all[3] == ItemOne;
    name := NextPath(it);
    ghost var rest := Unwind(it.Cfg(), it.parents);
    assert it.Remaining() == all[4..] == [ItemD, ItemE] + rest;
    assert rest == all[4..][2..] == all[6..];
    it.SkipStruct();
  }

  /** Three Next calls, two skips and a Next, from "struct_two" on. */
  method SkipStructThree(it: Iterator) returns (second: string, third: string)
    requires it.Valid() && SnakeCaseOnTestNames(it.mapper) && it.Cfg() == TestCfg(it.mapper)
    requires it.Remaining() == [ItemTwo, ItemF, ItemThree, ItemG, ItemH]
    modifies it, it.target
    ensures second == "struct_two.struct_three" && third == "struct_two.field_h"
  {
    InnerBItems(it.mapper);
    InnerCItems(it.mapper);
    TailPathValues();
    second := NextPath(it);
    second := NextPath(it);
    second := NextPath(it);
    assert second == "struct_two.struct_three";
    ghost var rest := Unwind(it.Cfg(), it.parents);
    assert it.Remaining() == [ItemG] + rest;
    assert rest == it.Remaining()[1..] == [ItemH];
    it.SkipStruct();
    it.SkipStruct();
    third := NextPath(it);
    assert third == "struct_two.field_h";
  }
}
