# patrick, modelled in Dafny

patrick generates stub implementations of Go interfaces. `Pour` is given a
Go source file, the name of an interface in it and the name of a new struct.
It returns two things:

- the declaration `type myStruct struct {}`;
- one stub method on `*myStruct` for every method of the interface, with the
  methods of embedded interfaces spliced in where the embed stands.

Each stub has these parts:

- **Receiver.** It is named by the first byte of the struct name's UTF-8
  encoding, read as a character: `m` for `myStruct`, but `Ã` for `ñame`.
- **Parameters.** Multi-name fields are split into one field per name. The
  parameters are renamed `arg1`, `arg2`, ..., with one counter running
  across the whole list. A named parameter keeps its name when
  `PreserveParamNames` is set.
- **Results.** They lose their names and are split the same way.
- **Body.** It declares `var val1 T1` ... `var valK TK` and ends with
  `return val1, ..., valK`.

The model covers all of `patrick.go`, in the code's own imperative form.
Each part below is a method proved equal to a pure specification function:

- `Pour`, a sequence of checks (module `Patrick`, `pour.dfy`; specified by
  `Patrick.Poured`);
- the recursive member walk `getFuncDecls`, a loop over the members
  (`Resolve.GetFuncDecls`, `resolve.dfy`; specified by `Resolve.DeclStubs`);
- `newFuncDecl` (`Stub.NewFuncDecl`, `stub.dfy`; specified by
  `Stub.StubbedFunc`) and its two loops (`Stub.BuildParams` and
  `Stub.BuildResults`; specified by `Stub.StubbedParams` and
  `Stub.StubbedResults`).

`newFuncDecl` builds its result list through a closure that captures a
counter, the result list, the declarations and the returned identifiers.
That closure is the class `Stub.ResultRecorder`.

The lemmas then state what the source promises about those functions:

- counts;
- where the k-th parameter and result come from;
- generated names;
- the shape of the body;
- member order and splicing;
- exactly when each error occurs.

The Go syntax tree is a handful of datatypes (`ast.dfy`). Syntax-tree
object bindings become lookups by name in a table of the file's type
declarations. The source returns three errors as error values: an empty
interface name, a parse failure and a missing interface (patrick.go:20-51).
Its panics become error results too:

| line | cause | error result |
|---|---|---|
| 55 | empty struct name | `EmptyStructName` |
| 88 | embedded name bound to a declaration that is not a type | not modelled (see "## Left out") |
| 93 | declaration is not an interface | `NotAnInterface` |
| 109 | embedded name with no declaration | `UnresolvedEmbed` |
| 206 | result type is not an identifier | `UnsupportedResultType` |

`scenarios.dfy` works the cases of `patrick_test.go` out on the model.

Three behaviours of the code are easy to miss; the model follows the code:

- **Error order.** Stubs are built while the members are walked, so the error
  reported is the first problem met in member order. A bad result type in an
  early method wins over an unresolved embed later on.
  `Resolve.DeclStubsFlatten` proves that flattening first and stubbing
  afterwards succeeds in exactly the same cases and gives the same stubs.
- **Embedding a non-interface.** An embedded name that is declared but is not
  an interface fails with `NotAnInterface`, from line 93, not with
  `UnresolvedEmbed`.
- **Parameter types.** Parameter types of any shape are copied unchanged.
  Only result types are checked.

## Model

| member | source | states |
|---|---|---|
| Names.Decimal | patrick.go:171 | the counter in `arg%d` / `val%d` is written as at least one decimal digit, with a leading `0` only for zero |
| Names.DecimalRoundTrip | patrick.go:171 | reading the digits of n back as a decimal number gives n |
| Names.GeneratedInjective | patrick.go:171 | two different counters never give the same generated name under one prefix |
| Fields.NumFields | patrick.go:159 | go/ast's `FieldList.NumFields`, the test behind lines 159 and 191: the number of entries a field list stands for, zero exactly when the list is empty |
| Fields.FieldSlots | patrick.go:163-185 | a field with names stands for one entry per name, in order, each keeping that name; a field without names stands for one nameless entry; every entry has the field's type |
| Fields.Slots | patrick.go:162-186 | splitting a field list gives NumFields entries, the sum over fields of max(1, number of names) |
| Fields.SlotsAt | patrick.go:162-186 | the entry of the t-th name of field j is entry NumFields(fields before j) + t: the counter runs on across fields |
| Fields.SlotsPrefix | patrick.go:162-186 | splitting the first j fields gives a prefix of splitting all of them |
| Fields.TypesPrefix | patrick.go:229-234 | the result types recorded for the first j fields are a prefix of all recorded result types |
| Fields.SlotTypesIdents | patrick.go:229-234 | every recorded result entry has an identifier type exactly when every result field does |
| Fields.UnnamedSlots | patrick.go:198-200 | a list of nameless one-entry fields splits back into exactly its types |
| Stub.Receiver | patrick.go:133-151 | the receiver list is one field with exactly one name, the receiver name, whose type is a pointer to the struct |
| Stub.StubbedParams | patrick.go:159-189 | the specification of the parameter loop: the split entries renamed from `arg1` on; there are NumFields parameters, each with exactly one name |
| Stub.AppendNamed | patrick.go:164-178 | the inner loop over a named field adds one parameter per name, numbered on from the counter, keeping the name when names are preserved, and advances the counter by the number of names |
| Stub.BuildParams | patrick.go:159-189 | the parameter loop builds exactly the renamed split parameter list |
| Stub.ParamAt | patrick.go:162-185 | the parameter for the t-th name of field j is parameter k = NumFields(fields before j) + t + 1; it has exactly one name: the original one when names are preserved and the field is named, else `arg<k>`; its type is the field's type |
| Stub.GeneratedParamsDistinct | patrick.go:171 | without preserved names, no two parameters share a name |
| Stub.PreservedParamNames | patrick.go:168-170 | with preserved names and every field named, the parameters carry the source's names, in order |
| Stub.VarDecl | patrick.go:209-224 | a placeholder declaration is a VAR declaration with one spec, which has exactly one name and the given type |
| Stub.StubbedResults | patrick.go:191-237 | the specification of the result loop: it fails only with an unsupported result type, one that is not an identifier; on success there are NumFields results and one more statement than that |
| Stub.ResultRecorder.constructor | patrick.go:192-195 | the closure starts with a zero counter and empty lists |
| Stub.ResultRecorder.RecordField | patrick.go:196-227 | one call bumps the counter and appends a nameless result of the field's type. If that type is an identifier, it appends `var val<i> T` and the identifier `val<i>` to the return list. Otherwise it reports the failure and appends nothing else |
| Stub.RecordRest | patrick.go:231-233 | the inner loop records the field once more for each of its names after the first |
| Stub.BuildResults | patrick.go:191-237 | the result loop builds exactly the stubbed results and body, or fails with the first result type that is not an identifier |
| Stub.ResultFailureAt | patrick.go:204-207 | when the fields before j have identifier types and field j does not, result stubbing fails with the type of field j |
| Stub.StubbedFunc | patrick.go:122-241 | the specification of a stub: the only error it can report is an unsupported result type, and a stub keeps the method's name and has the shared receiver |
| Stub.NewFuncDecl | patrick.go:122-241 | the method builds exactly the stub of one interface method |
| Stub.ResultStubShape | patrick.go:191-237 | a stubbed result list has NumFields nameless fields. The body has one more statement than that: statement k declares `val<k+1>` with the k-th result type, and the last returns `val1` .. `valK` in order |
| Stub.ResultAt | patrick.go:229-234 | the result entry for the t-th name of field j is entry k = NumFields(fields before j) + t: a nameless field of that field's type, declared as `val<k+1>` |
| Stub.PlaceholdersDistinct | patrick.go:202-224 | no two placeholder declarations declare the same name: `val1` .. `valK` are pairwise distinct, so the body never redeclares a variable |
| Stub.ResultsFailIff | patrick.go:204-207 | result stubbing fails exactly when some result field's type is not an identifier |
| Stub.SplitAndStripFirst | patrick.go:197-200 | only the sequence of result types matters: splitting and stripping the names first gives the same stub |
| Stub.StubFailsIff | patrick.go:159-207 | a stub fails exactly when a result type is not an identifier; parameter types are never checked |
| Stub.StubShape | patrick.go:130-191 | a stub keeps the method's name and has the receiver `(r *S)`. It has no parameter list exactly when the method has no parameters. It has no result list exactly when the method has no results, and then its body is empty. Otherwise it carries the stubbed lists |
| Resolve.DeclStubs | patrick.go:86-117 | the specification of the walk from one declaration: it succeeds only for an interface, and it reports only NotAnInterface, UnresolvedEmbed or UnsupportedResultType |
| Resolve.MembersStubs | patrick.go:96-117 | the walk over a list of members, spliced in member order; it reports only those three errors |
| Resolve.MemberStubs | patrick.go:97-116 | the stubs of one member: a method gives its stub, an embed the stubs of its declaration or UnresolvedEmbed, anything else nothing; it reports only those three errors |
| Resolve.MembersStubsAppend | patrick.go:96-117 | the stubs of two member lists in a row are the stubs of the first followed by those of the second, and a failure in the first is the failure of the whole |
| Resolve.GetFuncDecls | patrick.go:79-120 | the walk over an interface gives exactly its specified stubs: one per method member, the spliced stubs of each embed, nothing for other shapes, or the first failure in member order |
| Resolve.EarlyFailure | patrick.go:96-117 | a failure among the first k+1 members ends the walk with that failure |
| Resolve.DeclStubsFlatten | patrick.go:79-120 | stubbing while walking succeeds exactly when flattening the interface to its method signatures succeeds and every signature can be stubbed; then the stubs are the stubs of the flattened signatures |
| Resolve.MembersStubsFlatten | patrick.go:96-117 | the same, for a list of members |
| Resolve.MemberStubsFlatten | patrick.go:97-116 | the same, for one member |
| Resolve.SynthesizedAt | patrick.go:98-106 | a list of signatures can be stubbed exactly when each signature can, and then stub k is the stub of signature k |
| Resolve.StubsInOrder | patrick.go:96-117 | on success there is one stub per flattened method, in order, with that method's name and the shared receiver |
| Resolve.DirectMethods | patrick.go:98-106 | an interface whose members are all methods stands for exactly those methods, in order |
| Resolve.MembersStubsSucceed | patrick.go:96-117 | a member list can be stubbed exactly when each member can |
| Resolve.BadEmbedFails | patrick.go:86-112 | an interface that embeds an undeclared name, or a declaration that is not an interface, yields no stubs |
| Patrick.StructDecl | patrick.go:57-72 | the struct declaration is a single TYPE spec named after the struct, with an empty field list |
| Patrick.LeadByte | patrick.go:55 | the first byte of a character's UTF-8 encoding: the character itself below 0x80, otherwise a lead byte whose range gives the encoding's length |
| Patrick.ReceiverChar | patrick.go:55 | `string(structName[0])`: the character whose code is the first byte of the name's encoding, below 0x100, and the first character itself when that is ASCII |
| Patrick.TargetFor | patrick.go:54-55 | the receiver is named by ReceiverChar of the struct name |
| Patrick.Poured | patrick.go:19-77 | the specification of Pour: it succeeds only when both names are given, the source parses and the interface is declared, and then its struct declaration is `type structName struct {}` |
| Patrick.Pour | patrick.go:19-77 | Pour computes exactly its specification. The checks run in order: interface name, parse, lookup, struct name, then the walk |
| Patrick.PourErrors | patrick.go:20-55 | each early error occurs exactly in its own case: InvalidArgument iff the interface name is empty; ParseError iff the name is given and the parse failed, with the parser's message; NotFound iff the interface is not declared; EmptyStructName iff the interface exists and the struct name is empty |
| Patrick.PourSucceedsIff | patrick.go:19-77 | Pour succeeds exactly when both names are given, the source parses, the interface is declared, its embeds resolve to interfaces, and every result type of every method it stands for is an identifier |
| Patrick.PourSuccessShape | patrick.go:53-76 | on success the struct declaration is a single TYPE spec named after the struct with an empty field list. There is one stub per flattened method, in order, each with that method's name and the receiver `(c *structName)`, where c is ReceiverChar(structName) |
| Scenarios.TwoPlainMethods | patrick_test.go:62-117 | `interface { A(); B() }` poured into `myStruct` gives `type myStruct struct {}` and stubs A and B on `(m *myStruct)`, with no parameters, no results and empty bodies |
| Scenarios.EmbeddedSpliced | patrick.go:107-112 | an embedded interface's stubs come in place of the embed |
| Scenarios.UnresolvedEmbedFails | patrick.go:107-110 | embedding an undeclared name, such as the predeclared `error`, fails |
| Scenarios.NonAsciiReceiver | patrick.go:55 | a struct named `ñame` gets the receiver `Ã`, the character of the first byte 0xC3 of `ñ`'s encoding |
| Scenarios.UnnamedParams | patrick_test.go:120-154 | `A(int, string)` gets `A(arg1 int, arg2 string)` |
| Scenarios.SharedTypeParams | patrick_test.go:156-190 | `A(someInt, anotherInt int)` gets `A(arg1 int, arg2 int)` |
| Scenarios.PreservedNames | patrick_test.go:364-436 | `A(someInt int, someString string)` keeps its names when asked to and is renamed `arg1`, `arg2` otherwise |
| Scenarios.UnnamedResults | patrick_test.go:192-293 | `A() (int, string)` gets results `(int, string)` and the body `var val1 int; var val2 string; return val1, val2` |
| Scenarios.NamedResults | patrick_test.go:295-327 | `A() (someInt int, someString string)` gets the same stub with the names stripped |
| Scenarios.SharedTypeResults | patrick_test.go:329-361 | `A() (someInt, anotherInt int)` gets two results of type `int` and two placeholders |
| Scenarios.PointerResultFails | patrick.go:204-207 | a result of type `*T` stops generation, a parameter of that type does not |

## Left out

- **Parsing (patrick.go:25).** The parser is an input: a `Source` is either a
  parse failure with its message, which is passed through, or the file's
  type declarations.
- **Inspection and objects.** `ast.Inspect` and `ast.Object` identity
  (patrick.go:30-48, 54-55, and the `Obj` fields of the output) are replaced
  by lookup of a name in a map. Some consequences:
  - A file can declare the same name twice, for example a local type in a
    function body. Then the source takes the last matching declaration for
    the interface and the parser's scope for an embed. The model holds one
    declaration per name.
  - An embedded name bound to a declaration that is not a type makes the source
    panic at line 88. The table holds only type declarations, so the model
    reports `UnresolvedEmbed` for it.
  - go/parser never binds the blank identifier, so `interface { _ }` makes
    the source panic at line 109. The model looks `_` up like any other name
    and follows it when the table has an entry under that key.
- **Token positions and output.** Token positions (patrick.go:153-155) are
  not modelled. The debug print of an unknown member shape (patrick.go:114) is
  not modelled either; only the skipping is.
- **Rendering.** Rendering the output with gofmt is not modelled, and neither
  is the test harness.
- **Cyclic embedding.** Once the walk enters a cycle of embeds, the source
  recurses without bound until the runtime aborts with a stack overflow.
  The model requires a rank that decreases along every embed between
  interfaces (`Resolve.Ranked`). This precondition excludes
  every table with a cycle of embeds reachable from the interface. That
  includes tables where the source would stop first on an earlier failure:
  for `type I interface { error; I }` the source fails on `error`
  (patrick.go:109) and never recurses, but the model has no rank for it.
- **Type expressions.** A type expression is a value, so the sharing of
  `field.Type` between the input and the output trees is not modelled.
- **Mixed parameter lists.** Go's parser rejects a parameter list that mixes
  named and unnamed parameters; the model accepts any list. The stubbing
  handles each field on its own either way.
