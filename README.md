# go-qparam in Dafny

A model of the core of go-qparam, a Go package that fills structs from the
query parameters of a URL (`url.Values`, a map from a key to its list of
values). The model covers:

- the field iterator of `internal/iterator.go`, a resumable depth-first walk
  over a struct. It yields each settable field's dotted path and allocates nil
  pointer fields on the way. It is modelled as a `class` with its parent stack,
  index and three-valued state. It is proved against one pure function,
  `FieldIterator.Items`, which is the whole pre-order sequence of items.
- the typed parser registry of `internal/parser.go` (`ScalarParsers`), over an
  exact model of the base-10 parts of Go's `strconv` (`Strconv`).
- the `UnmarshalText` capability lookup of `internal/checked_parser.go`
  (`CheckedParsers`).
- the two legacy `ParseInto` dispatchers: `internal/parse.go` as
  `ValueParse.ParseInto` and `internal/reflect.go` as
  `InterfaceParse.ParseInto`.
- `New` and `Reader.Read` of `qparam.go` (`Qparam`).

Go's reflection is reduced to value descriptors (`Values`):

- a kind;
- the data held;
- whether `UnmarshalText` is in the method set of the value's type or of a
  pointer to it;
- a `Handle` class for a `reflect.Value` that code writes through, with its
  addressability and exportedness.

Panics become `Failure` results. Float parsing, the float32 rounding of
`SetFloat` and the bodies of `UnmarshalText` methods are code the model cannot
see. They are passed in as the functions of a `Foreign` value.

The files `wrappers.dfy`, `strconv.dfy` and `values.dfy` hold the shared
definitions. Each other file models one source file.

## Model

| member | source | states |
|---|---|---|
| Strconv.ParseUintSpec | internal/parser.go:93-136 | strconv.ParseUint in base 10 succeeds exactly on non-empty digit strings whose value is below 2^bits, and then returns that value; bitSize 0 means 64 |
| Strconv.ParseIntSpec | internal/parser.go:48-91 | strconv.ParseInt succeeds exactly on an optional sign followed by digits whose value lies in [-2^(bits-1), 2^(bits-1)-1], and then returns it |
| Strconv.ScanDigitsSpec | internal/parser.go:93-136 | the digit loop succeeds exactly on an all-digit text within the maximum, with its decimal value; when it fails, the error is a range error exactly when some digit prefix exceeds the maximum before any non-digit is met, and a syntax error otherwise |
| Strconv.ParseUint | internal/parser.go:93-136 | strconv.ParseUint in base 10 rejects the empty text as a syntax error and a bitSize above 64 as a bitSize error, fails only with a syntax, range or bitSize error, and returns a value below 2^bits (bitSize 0 meaning 64) |
| Strconv.ParseInt | internal/parser.go:48-91 | strconv.ParseInt in base 10 rejects the empty text as a syntax error, fails only with a syntax, range or bitSize error, and returns a value in [-2^(bits-1), 2^(bits-1)-1] |
| Strconv.DecimalPrefixMonotone | internal/parser.go:93-136 | the value of a digit prefix never exceeds the value of the whole string, so a range error is final |
| Strconv.ParseIntFromOk | internal/parser.go:48-91 | ParseInt after a successful unsigned scan of the digits gives the signed value, or a range error when it is out of the signed range |
| Strconv.ParseIntFromRange | internal/parser.go:48-91 | ParseInt turns an unsigned range error on the digits into a signed range error |
| Strconv.SignOf | internal/parser.go:48-91 | a text is a signed decimal exactly when what follows its one optional sign is a decimal, and its value is that of the digits, negated after a '-' |
| Strconv.FormatUintDecimal | internal/parser_test.go:71-89 | FormatUint renders a decimal digit string denoting its argument |
| Strconv.ParseUintFormatUint | internal/parser_test.go:71-89 | round trip: every value below 2^bits survives FormatUint then ParseUint |
| Strconv.ParseIntFormatInt | internal/parser_test.go:22-45 | round trip: every value in the signed range of a width survives FormatInt then ParseInt |
| Strconv.ParseUintRejectsSign | qparam_test.go:119 | ParseUint rejects a leading '-' or '+' as a syntax error, so "-399" fails |
| Strconv.ParseBool | internal/parser.go:156-163 | strconv.ParseBool accepts exactly 1, t, T, TRUE, true, True and 0, f, F, FALSE, false, False, mapping the first six to true, and fails otherwise with a syntax error |
| Values.WrapSigned | internal/parse.go:36 | SetInt's narrowing to a signed width lands in that width's range, differs from the 64-bit number by a multiple of 2^width (two's complement truncation), and leaves an in-range number as it is |
| Values.WrapUnsigned | internal/parse.go:42 | SetUint's narrowing to an unsigned width lands below 2^width, differs from the 64-bit number by a multiple of 2^width, and leaves an in-range number as it is |
| ScalarParsers.SelectParser | internal/parser.go:18-40 | a parser is found exactly for the fourteen registered kinds, and it stores the value's own kind at the kind's width |
| ScalarParsers.RegisteredShape | internal/parser.go:18-33 | each integer kind is registered with the parser of its signedness and the bitSize whose strconv width is the kind's width (int and uint: 0, i.e. 64) |
| ScalarParsers.Convert | internal/parser.go:48-168 | the conversion half of a parserFunc yields data of the parser's own kind; the string parser never fails and keeps the text; the bool parser accepts exactly strconv's twelve spellings |
| ScalarParsers.Parse | internal/parser.go:42-46 | a parser run on a handle leaves it unchanged on a conversion error or when it is not settable, and otherwise stores the converted value |
| ScalarParsers.SignedParserSpec | internal/parser.go:48-91 | the signed parser of width N succeeds exactly on an optionally signed decimal in [-2^(N-1), 2^(N-1)-1], with that value |
| ScalarParsers.UnsignedParserSpec | internal/parser.go:93-136 | the unsigned parser of width N succeeds exactly on unsigned decimals below 2^N, with that value |
| ScalarParsers.SignedRoundTrip | internal/parser_test.go:22-45 | the decimal text of any in-range value of a signed kind parses back to it |
| ScalarParsers.UnsignedRoundTrip | internal/parser_test.go:71-89 | the decimal text of any in-range value of an unsigned kind parses back to it |
| ScalarParsers.SignedText | internal/parser_test.go:22-45 | the decimal text of an in-range value of a signed kind is accepted by ParseInt at the bitSize registered for that kind, with that value |
| ScalarParsers.UnsignedText | internal/parser_test.go:71-89 | the decimal text of an in-range value of an unsigned kind is accepted by ParseUint at the bitSize registered for that kind, with that value |
| ScalarParsers.SignedThrough | internal/parser.go:48-91 | whatever ParseInt accepts at a signed kind's registered bitSize, that kind's registered parser converts to the same number of that kind |
| ScalarParsers.UnsignedThrough | internal/parser.go:93-136 | whatever ParseUint accepts at an unsigned kind's registered bitSize, that kind's registered parser converts to the same number of that kind |
| ScalarParsers.BoolParserSpec | internal/parser.go:156-163 | the bool parser accepts exactly strconv's twelve spellings, "true" giving true and "false" giving false |
| ScalarParsers.StringParserSpec | internal/parser.go:165-168 | the string parser never fails and stores its input unchanged |
| ScalarParsers.UnsignedRejectsNegative | qparam_test.go:119 | every unsigned parser rejects "-399" with a syntax error |
| CheckedParsers.Method | internal/checked_parser.go:54-66 | the lookup finds the method on the value exactly when its own type has it; otherwise, for a pointer, on the pointee exactly when the pointee's type has it, a nil pointer panicking; otherwise, for a non-pointer, through its address exactly when it is addressable and the pointer type has it; and finds nothing in every remaining case |
| CheckedParsers.Check | internal/checked_parser.go:32-38 | Check holds exactly when UnmarshalText is on the value's type, on a non-nil pointee's type, or on the pointer to an addressable non-pointer; it panics exactly on a nil pointer whose own type lacks the method |
| CheckedParsers.SelectCheckedParser | internal/checked_parser.go:21-28 | the loop returns the first registered parser whose Check holds, none when no Check holds, and a panic of Check |
| CheckedParsers.FirstCheckedIsFirst | internal/checked_parser.go:21-28 | for any list of parsers, the one selected is one whose Check holds with every earlier Check false, and none is selected exactly when every Check is false |
| CheckedParsers.SelectTextParser | internal/checked_parser.go:17-38 | with only the text parser registered, selection finds it exactly when the lookup finds UnmarshalText |
| CheckedParsers.Parse | internal/checked_parser.go:40-52 | textParser.Parse on a handle stores what UnmarshalText left and reports its error, or reports that the method is unavailable without calling anything |
| CheckedParsers.UnavailableCallsNothing | internal/checked_parser.go:40-44 | with no method found the target keeps its value and the error is "method UnmarshalText not available" |
| CheckedParsers.CheckedParseAvailable | internal/checked_parser.go:32-51 | when Check holds Parse never reports "not available", and for an exported target it fails exactly when UnmarshalText returns an error |
| ValueParse.SetScalar | internal/parse.go:28-58 | the kind switch fails with ErrUnsupportedType exactly for kinds other than int, uint, float, bool and string; any failure writes nothing; a write keeps the kind; a string is stored unchanged |
| ValueParse.ParseInto | internal/parse.go:18-61 | a target with UnmarshalText is handled only by it: when exported it holds what the method left and fails exactly when the method returns an error, with "Error while calling UnmarshalText"; any other failure leaves the target unchanged; an unexported field is never written |
| ValueParse.SignedStore | internal/parse.go:31-36 | a signed target receives the 64-bit parse truncated to its own width |
| ValueParse.UnsignedStore | internal/parse.go:37-42 | an unsigned target receives the 64-bit parse truncated to its own width |
| ValueParse.SignedRejected | internal/parse.go:31-35 | a text that ParseInt at 64 bits rejects fails a signed target with that very ParseInt error and leaves it unchanged |
| ValueParse.UnsignedRejected | internal/parse.go:37-41 | a text that ParseUint at 64 bits rejects fails an unsigned target with that very ParseUint error and leaves it unchanged |
| ValueParse.BoolStore | internal/parse.go:49-54 | a bool target receives true for the texts ParseBool reads as true and false for the ones it reads as false; any other text fails with its syntax error and writes nothing |
| ValueParse.PointerStore | internal/parse.go:25-27 | through a pointer without UnmarshalText, what the kind switch stores in the pointee is what ParseInto stores, and the pointer is otherwise kept |
| ValueParse.DirectStore | internal/parse.go:24-30 | on a target that is not a pointer and whose own method set lacks UnmarshalText, ParseInto is exactly the kind switch |
| ValueParse.SignedAgrees | internal/parse.go:31-36 | wherever the typed signed parser accepts a text, this dispatcher stores the same number |
| ValueParse.SignedAccepted | internal/parse.go:31-36 | what the typed signed parser accepts, the 64-bit ParseInt accepts with the same number, and narrowing that number to the kind leaves it as it is |
| ValueParse.ParseInt64 | internal/parse.go:32 | ParseInt at 64 bits accepts every signed decimal in the int64 range with its value |
| ValueParse.UnsignedAgrees | internal/parse.go:37-42 | wherever the typed unsigned parser accepts a text, this dispatcher stores the same number |
| ValueParse.UnsignedAccepted | internal/parse.go:37-42 | what the typed unsigned parser accepts, the 64-bit ParseUint accepts with the same number |
| ValueParse.ParseUint64 | internal/parse.go:38 | ParseUint at 64 bits accepts every decimal below 2^64 with its value |
| ValueParse.TruncatesOutOfRange | internal/parse.go:31-36 | a 64-bit number out of a signed kind's range, which the typed parser rejects, is stored here truncated and so changed |
| ValueParse.OutOfKindRange | internal/parse.go:31-36 | a 64-bit number that the typed parser of a signed kind rejects lies outside that kind's range |
| ValueParse.Int8Narrowing | internal/parse.go:31-36 | a text whose 64-bit value n lies in [128, 256), written into an int8 field, stores n - 256 (so "200" becomes -56) |
| ValueParse.Int8Wrap | internal/parse.go:36 | narrowing a number in [128, 256) to 8 bits gives that number minus 256 |
| ValueParse.SignedRoundTrip | internal/parse.go:25-36 | through a pointer the decimal text of an in-range signed value is stored in the pointee unchanged |
| ValueParse.UnsignedRoundTrip | internal/parse.go:25-42 | through a pointer the decimal text of an in-range unsigned value is stored in the pointee unchanged |
| ValueParse.SignedText | internal/parse.go:32 | the decimal text of an in-range value of a signed kind is accepted by the 64-bit ParseInt with that value |
| ValueParse.SignedThrough | internal/parse.go:25-36 | through a pointer to a signed kind, a text that ParseInt accepts at 64 bits with a value in the kind's range is stored in the pointee unchanged |
| ValueParse.UnsignedText | internal/parse.go:38 | the decimal text of an in-range value of an unsigned kind is accepted by the 64-bit ParseUint with that value |
| ValueParse.UnsignedThrough | internal/parse.go:25-42 | through a pointer to an unsigned kind, a text that ParseUint accepts at 64 bits with a value in the kind's range is stored in the pointee unchanged |
| InterfaceParse.ParseInto | internal/reflect.go:16-57 | a TextUnmarshaler target never fails, since the method's error is ignored, and holds what the method left when it is a pointer and is unchanged otherwise (the interface holds a copy); a target that is not a pointer is never written, and without a method it fails |
| InterfaceParse.AgreesWithValueParse | internal/reflect.go:20-55 | through a pointer both dispatchers write the same value, and without UnmarshalText they report the same outcome |
| InterfaceParse.AgreesThroughPointer | internal/reflect.go:20-55 | through a non-nil pointer whose own method set lacks UnmarshalText, this dispatcher gives exactly the outcome of the one in internal/parse.go |
| InterfaceParse.SignedRoundTrip | internal/reflect_test.go:31-56 | the decimal text of an in-range signed value is stored through a pointer unchanged |
| InterfaceParse.UnsignedRoundTrip | internal/reflect_test.go:31-56 | the decimal text of an in-range unsigned value is stored through a pointer unchanged |
| InterfaceParse.StringStored | internal/reflect.go:52-53 | any text is stored unchanged through a pointer to a string |
| FieldIterator.FieldName | internal/iterator.go:93-102 | a field's name is its tag value when that is non-empty and otherwise the mapped Go name |
| FieldIterator.Allocate | internal/iterator.go:105-108 | allocating a pointer field makes it non-nil, leaves every pointer outside it as it was, and every pointer inside the fresh value is nil |
| FieldIterator.Iterator.New | internal/iterator.go:25-35 | a new iterator has an empty stack, needs forwarding, and has the whole walk of the root struct still to yield |
| FieldIterator.Iterator.HasNext | internal/iterator.go:48-53 | HasNext consumes nothing, answers whether anything remains, and allocates only the pointer of the item it prepares |
| FieldIterator.Iterator.Next | internal/iterator.go:55-63 | Next hands out the path and handle of the next item and consumes it; after a struct item what remains is that struct's fields and then what the stack holds; after the end it repeats the last path |
| FieldIterator.Iterator.SkipStruct | internal/iterator.go:65-68 | SkipStruct drops the rest of the current struct, so what remains is what the parent stack holds; the stack is unchanged, so a second call changes nothing |
| FieldIterator.Iterator.Forward | internal/iterator.go:70-135 | forward reports DONE exactly when nothing is pending, with the stack empty; otherwise it prepares exactly the next item of the walk with its path, handle and pointer allocation |
| FieldIterator.Iterator.Yield | internal/iterator.go:104-133 | at an eligible field the prepared item is the head of the walk, the path and handle are its own, a nil pointer is allocated, and a struct field is entered |
| FieldIterator.Iterator.Examine | internal/iterator.go:85-102 | the field under the cursor is walked exactly when it is settable and not tagged "-", and then its name is its tag value or the mapped Go name |
| FieldIterator.Iterator.Expose | internal/iterator.go:104-121 | the handle exposed is the field (or the pointee of a pointer field) at the cursor, its path is the parent names and its own, and only a nil pointer is allocated |
| FieldIterator.Iterator.Advance | internal/iterator.go:123-133 | after an eligible field the walk pends exactly what followed it: a struct field is entered with the current level pushed, any other field moves the cursor to the next one |
| FieldIterator.Iterator.AllocatePointer | internal/iterator.go:105-108 | a nil pointer field is given a fresh zero value; a non-nil one is left as it is |
| FieldIterator.Iterator.SetPath | internal/iterator.go:112-121 | a yielded path is the parent names and the field's name joined with "." (just the name at the root) |
| FieldIterator.Iterator.PathNames | internal/iterator.go:114-117 | the loop collects the names on the parent stack, bottom first |
| FieldIterator.ItemsStep | internal/iterator.go:85-133 | one field of the walk: an ineligible field yields nothing, a struct field yields itself then its own fields, and any other field yields itself |
| FieldIterator.PushParent | internal/iterator.go:124-128 | pushing a parent appends its name and resumes the walk at the field after the one descended through |
| FieldIterator.YieldStep | internal/iterator.go:104-133 | what forward prepares at an eligible field is the head of the pending walk, and the state it leaves pends exactly the rest |
| FieldIterator.YieldOther | internal/iterator.go:104-121 | at an eligible field that is not a struct, the walk pends that field, then the walk from the next field |
| FieldIterator.YieldStruct | internal/iterator.go:123-129 | at an eligible struct field, the walk pends that field, then the walk that the pushed parent leaves: its own fields, then the rest |
| FieldIterator.PopParent | internal/iterator.go:73-79 | popping an exhausted struct off the stack keeps the pending walk: it resumes at the field after the one the parent descended through |
| FieldIterator.SkipField | internal/iterator.go:85-98 | skipping a field that is not settable or is tagged "-" keeps the pending walk |
| FieldIterator.FieldAtPathStep | internal/iterator.go:124-127 | an index path through a struct field continues in that field's struct |
| FieldIterator.ItemsWellPlaced | internal/iterator.go:85-102 | every yielded item is a settable field not tagged "-", named by its tag or the mapper, reached by its index path |
| FieldIterator.SubtreeWellPlaced | internal/iterator.go:124-129 | the items below a struct field lie within that field |
| FieldIterator.PrefixPrecedes | internal/iterator.go:123-129 | a struct's index path comes before the paths of its fields |
| FieldIterator.ForkPrecedes | internal/iterator.go:131-133 | of two index paths that part at some level, the smaller field index comes first |
| FieldIterator.SortedConcat | internal/iterator.go:71-133 | two ordered runs, all of the first before all of the second, form an ordered run |
| FieldIterator.ItemsSorted | internal/iterator.go:71-133 | the walk yields fields in declaration order, depth first, each struct before its own fields (strict pre-order) |
| FieldIterator.SubtreeSorted | internal/iterator.go:123-133 | a struct item, then its fields, then the following fields are in pre-order |
| FieldIterator.ItemsComplete | internal/iterator.go:85-102 | every eligible field of the struct itself, from index i on, is yielded |
| FieldIterator.ItemsSuffix | internal/iterator.go:71-133 | whatever the walk from a later field yields, the walk from an earlier field yields too |
| FieldIterator.ItemsCompleteNested | internal/iterator.go:71-133 | every eligible field at every depth, reached by an index path through eligible struct fields (or pointers to structs), is yielded with that path |
| FieldIterator.UnaddressableYieldsNothing | internal/iterator.go:86-90 | in a struct that is not addressable no field is settable, so nothing is yielded |
| FieldIterator.Paths | internal/iterator_test.go:42-54 | the paths of a run of items, one per item |
| FieldIterator.PathsConcat | internal/iterator_test.go:42-54 | the paths of two runs are the paths of each, in order |
| FieldIterator.InnerCItems | internal/iterator_test.go:17-39 | the walk below struct_two.struct_three of the test struct yields field_g only |
| FieldIterator.InnerBItems | internal/iterator_test.go:17-39 | the walk below struct_two yields field_f, struct_three, its field_g, then field_h |
| FieldIterator.InnerAItems | internal/iterator_test.go:17-39 | the walk below the pointer field struct_one yields field_d and field_e |
| FieldIterator.OuterTailItems | internal/iterator_test.go:17-39 | from the field tagged "-" on, the test struct yields struct_one and struct_two with their subtrees and skips the "-" field |
| FieldIterator.OuterScalarStep | internal/iterator_test.go:17-39 | the first three fields of the test struct yield field_a, filed_b and field_c (the last named by its tag) |
| FieldIterator.OuterHeadItems | internal/iterator_test.go:17-39 | the walk of the test struct starts with field_a, filed_b and field_c, then goes on from the field tagged "-" |
| FieldIterator.OuterItems | internal/iterator_test.go:17-54 | the whole walk of the test struct, item by item |
| FieldIterator.HeadPathValues | internal/iterator_test.go:42-48 | the paths of the first six items of the test walk are the first six expected paths |
| FieldIterator.TailPathValues | internal/iterator_test.go:48-54 | the paths of the last five items of the test walk are the last five expected paths |
| FieldIterator.TestItemPaths | internal/iterator_test.go:42-54 | the eleven items of the test walk have the eleven expected paths, in order |
| FieldIterator.TestStructPaths | internal/iterator_test.go:42-54 | the walk of the test struct yields the eleven expected paths in order |
| FieldIterator.TakeOne | internal/iterator_test.go:86-87 | one HasNext and, if it says yes, one Next take exactly the next remaining item |
| FieldIterator.Drain | internal/iterator_test.go:85-90 | the loop "while HasNext, Next" collects the paths of everything the iterator had to yield, in order, and leaves nothing |
| FieldIterator.TakeStep | internal/iterator_test.go:85-90 | the paths of one more item extend the collected paths by that item's path |
| FieldIterator.HasNextTest | internal/iterator_test.go:67-91 | an iterator over the test struct yields the eleven expected paths |
| FieldIterator.NextPath | internal/iterator.go:55-63 | Next while an item remains, reduced to its path |
| FieldIterator.Advance | internal/iterator_test.go:97-109 | n Next calls drop exactly the first n remaining items |
| FieldIterator.SkipTest | internal/iterator_test.go:93-115 | after struct_one, SkipStruct resumes at struct_two; after struct_two.struct_three, two SkipStruct calls resume at struct_two.field_h |
| FieldIterator.SkipStructOne | internal/iterator_test.go:97-103 | four Next calls end at struct_one, and skipping leaves struct_two and its subtree |
| FieldIterator.SkipStructThree | internal/iterator_test.go:105-114 | three Next calls end at struct_two.struct_three, and after two skips the next path is struct_two.field_h |
| Qparam.Reader.New | qparam.go:59-67 | New starts from the tag "param" and the lower-casing mapper, then applies the options in order |
| Qparam.Configure | qparam.go:62-64 | after the option loop the tag key is the starting one or the argument of some Tag option, and the mapper is the starting one or the argument of some Mapper option |
| Qparam.ConfigureConcat | qparam.go:62-64 | applying two runs of options is applying the first, then the second |
| Qparam.TagKept | qparam.go:37-49 | Mapper options leave the tag key alone |
| Qparam.MapperKept | qparam.go:37-49 | Tag options leave the mapper alone |
| Qparam.LastTagWins | qparam.go:45-49 | the last Tag option decides the tag key, whatever precedes it |
| Qparam.LastMapperWins | qparam.go:37-41 | the last Mapper option decides the mapper, whatever precedes it |
| Qparam.NamingAgreesWithIterator | qparam.go:83-86 | Read names a field by its tag value whenever the key is present, even when the value is empty; it agrees with the iterator's naming exactly when the tag value is absent or non-empty, or the mapper gives "" |
| Qparam.ParamName | qparam.go:83-86 | a field's parameter name is its tag value whenever the tag key is present, even when that value is empty, and otherwise the mapped Go name |
| Qparam.FillFrom | qparam.go:81-93 | the field loop writes only fields from its start on, leaves a field whose parameter is absent unchanged, and never writes an unexported field |
| Qparam.ReadSpec | qparam.go:71-97 | the target loop changes only the structs the targets point to, keeps their field counts, and returns nil only when every target was a pointer to a struct |
| Qparam.Reader.Read | qparam.go:71-97 | Read writes into every target struct what the target loop specifies, on the current contents of the structs, and returns its failure |
| Qparam.Reader.ReadTarget | qparam.go:73-93 | one round of the target loop: it either ends Read with the specified contents and failure, or leaves the structs as the specification has them after that target |
| Qparam.Reader.ReadStruct | qparam.go:81-93 | the field loop for one struct: an absent parameter skips the field, an empty value list panics, the first value is parsed into the field, and a failure stops the loop with what was written kept |
| Qparam.Reader.FindMatch | qparam.go:81-91 | a nil struct pointer makes Read panic exactly when some field names a present parameter |
| Qparam.ReadConcat | qparam.go:73-94 | reading two runs of targets is reading the first and, unless that failed, the second on what the first left |
| Qparam.StopsAtNonPointer | qparam.go:73-77 | Read returns errNoPtr at the first non-pointer target; the earlier targets keep their writes and the later ones are not touched |
| Qparam.FirstValueOnly | qparam.go:87-92 | only the first value of each parameter matters |
| Qparam.NestedStructFails | qparam.go:81-93 | Read does not descend into nested structs: a struct field whose parameter is present panics with ErrUnsupportedType and nothing is written |
| Qparam.StringFieldGetsFirstValue | qparam.go:91-92 | a matched exported string field receives the first value of its parameter, unchanged |
| Qparam.NoParamsNoWrites | qparam.go:87-90 | with no parameters nothing is written and Read returns nil for pointers to structs |
| Qparam.NothingToFill | qparam.go:87-90 | with no parameters the field loop writes nothing and does not fail |

## Left out

- Float parsing: strconv.ParseFloat and the rounding of a float64 to float32 are functions passed in (`Foreign`), so the float parsers of internal/parser.go:138-154, internal/parse.go:43-48 and internal/reflect.go:40-45 are modelled only up to them.
- The bodies of `UnmarshalText` methods (time.Time, null.Bool, ...) are a function passed in. Whether a method with a value receiver writes into a copy is whatever that function returns.
- The name mappers strings.ToLower and strcase.SnakeCase are `string -> string` parameters. The iterator tests' mapper is pinned by `FieldIterator.SnakeCaseOnTestNames` on the names the test struct uses.
- Struct tags are maps from key to value. The parsing of a raw tag string by reflect.StructTag is not modelled.
- `int` and `uint` are taken to be 64 bits wide, as on the 64-bit platforms the tests are written for.
- FieldIterator.Iterator.New: NewIterator on a nil pointer or a non-struct panics later in reflect; the model takes the root as an already dereferenced struct.
- FieldIterator.Iterator.Next: after the end the handle it returns is the last field forward looked at. The model does not pin that handle, only the path.
- The iterator models struct types as finite trees. Recursive pointer types, which would make the walk allocate forever, are not modelled. A pointer to a pointer is followed once, as in the source, and the field is yielded without being entered.
- The iterator's target is reduced to the set of its non-nil pointer fields, because the iterator writes nothing else. Field values are not modelled there.
- Value.Set in internal/parser.go panics when the target's type is a named type that the parsed value is not assignable to. The model treats every target of the right kind as assignable.
- Aliasing between `Handle`s, such as two handles onto one field, is not modelled. Reader.Read does model targets that point to the same struct.
- Qparam.Reader.Read: the targets are descriptors (a pointer to a struct, a nil struct pointer, a pointer to something else, a non-pointer, the untyped nil). The field values of a target struct are `Value`s. Nested structs are values of kind Struct that the model does not look into.
- The internal ParseInto that Read calls is the one of internal/parse.go, since Read passes it a reflect.Value. That ParseInto panics on every failure and Read does not recover, so the model returns the failure as Read's result. Go would instead unwind the caller.
- UnmarshalText methods with a signature other than `func([]byte) error` are not modelled.
- net/url, HTTP and doc.go are out of scope. The test files are used only as evidence of the properties. Some of them call an API (NewReader, Strict, MultiError, a Parse with two results) that the modelled code does not have.
