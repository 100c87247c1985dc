/** Pour: given the declarations of a Go source file, the name of an interface
    and the name of a new struct, build `type S struct {}` and one stub method
    on `*S` for every method the interface has, embedded ones included. */
module Patrick {
  import opened Ast
  import opened Fields
  import opened Stub
  import opened Resolve

  /** The options for pouring the struct. */
  datatype Opts = Opts(preserveParamNames: bool)

  /** `type S struct {}`: one TYPE spec whose struct has no fields. */
  function StructDecl(structName: string): (d: GenDecl)
    ensures d.tok == TYPE && |d.specs| == 1
    ensures d.specs[0] == TypeSpec(structName, StructType([]))
  {
    GenDecl(TYPE, [TypeSpec(structName, StructType([]))])
  }

  /** The first byte of the UTF-8 encoding of c. */
  function LeadByte(c: char): (b: nat)
    ensures b < 0x100
    ensures b < 0x80 <==> c as int < 0x80
    ensures c as int < 0x80 ==> b == c as int
    ensures 0x80 <= c as int < 0x800 ==> 0xC0 <= b < 0xE0
    ensures 0x800 <= c as int < 0x10000 ==> 0xE0 <= b < 0xF0
    ensures 0x10000 <= c as int ==> 0xF0 <= b < 0xF8
  {
    var n := c as int;
    if n < 0x80 then n
    else if n < 0x800 then 0xC0 + n / 0x40
    else if n < 0x10000 then 0xE0 + n / 0x1000
    else 0xF0 + n / 0x40000
  }

  /** Go's `string(structName[0])`: the first byte of the name's encoding,
      read as the code point of the same value. For a name that starts with
      an ASCII character this is that character. */
  function ReceiverChar(structName: string): (c: char)
    requires structName != ""
    ensures c as int < 0x100
    ensures structName[0] as int < 0x80 ==> c == structName[0]
  {
    LeadByte(structName[0]) as char
  }

  /** The target of a generation: the receiver is named by the struct name's
      first byte. */
  function TargetFor(structName: string, opts: Opts): (t: Target)
    requires structName != ""
    ensures t.structName == structName && t.recvName == [ReceiverChar(structName)]
    ensures t.preserve == opts.preserveParamNames
  {
    Target(structName, [ReceiverChar(structName)], opts.preserveParamNames)
  }

  /** What the model asks of the declarations: following embeds from the
      requested interface ends (otherwise the source recurses without bound
      until the runtime aborts with a stack overflow). */
  predicate Resolvable(src: Source, interfaceName: string, rank: map<string, nat>)
  {
    src.Parsed? ==> Ranked(src.decls, rank) && (interfaceName in src.decls ==> interfaceName in rank)
  }

  /** The outcome of Pour, checking in the source's order: the interface
      name, the parse, the lookup, the struct name, and then the walk. */
  function Poured(src: Source, interfaceName: string, structName: string, opts: Opts, rank: map<string, nat>)
    : (r: Result<(GenDecl, seq<FuncDecl>)>)
    requires Resolvable(src, interfaceName, rank)
    ensures r.Success? ==> interfaceName != "" && structName != "" && src.Parsed? && interfaceName in src.decls
    ensures r.Success? ==> r.value.0 == StructDecl(structName)
  {
    if interfaceName == "" then Failure(InvalidArgument)
    else if src.ParseFailure? then Failure(ParseError(src.message))
    else if interfaceName !in src.decls then Failure(NotFound)
    else if structName == "" then Failure(EmptyStructName)
    else
      var funcDecls :- DeclStubs(src.decls, rank, TargetFor(structName, opts), interfaceName);
      Success((StructDecl(structName), funcDecls))
  }

  method Pour(src: Source, interfaceName: string, structName: string, opts: Opts, ghost rank: map<string, nat>)
    returns (r: Result<(GenDecl, seq<FuncDecl>)>)
    requires Resolvable(src, interfaceName, rank)
    ensures r == Poured(src, interfaceName, structName, opts, rank)
  {
    if interfaceName == "" {
      return Failure(InvalidArgument);
    }
    if src.ParseFailure? {
      return Failure(ParseError(src.message));
    }
    var obj: Option<string> := None;
    if interfaceName in src.decls {
      obj := Some(interfaceName);
    }
    if obj.None? {
      return Failure(NotFound);
    }
    if structName == "" {
      return Failure(EmptyStructName);
    }
    var genDecl := StructDecl(structName);
    var funcDecls := GetFuncDecls(src.decls, TargetFor(structName, opts), obj.value, rank);
    if funcDecls.Failure? {
      return Failure(funcDecls.error);
    }
    return Success((genDecl, funcDecls.value));
  }

  // ------------------------------------------------------------ errors

  /** Each early error of Pour happens exactly in its own circumstances; the
      walk never reports any of them. */
  lemma {:induction false} PourErrors(src: Source, interfaceName: string, structName: string, opts: Opts, rank: map<string, nat>)
    requires Resolvable(src, interfaceName, rank)
    ensures var r := Poured(src, interfaceName, structName, opts, rank);
      (r == Failure(InvalidArgument) <==> interfaceName == "") &&
      (r.Failure? && r.error.ParseError? <==> interfaceName != "" && src.ParseFailure?) &&
      (r.Failure? && r.error.ParseError? ==> r.error.message == src.message) &&
      (r == Failure(NotFound) <==> interfaceName != "" && src.Parsed? && interfaceName !in src.decls) &&
      (r == Failure(EmptyStructName) <==>
         interfaceName != "" && src.Parsed? && interfaceName in src.decls && structName == "")
  {
  }

  /** Pour succeeds exactly when both names are given, the source parses, the
      interface exists, its embeds can all be followed to interfaces, and
      every result type of every method it stands for is a plain identifier. */
  lemma {:induction false} PourSucceedsIff(src: Source, interfaceName: string, structName: string, opts: Opts, rank: map<string, nat>)
    requires Resolvable(src, interfaceName, rank)
    ensures Poured(src, interfaceName, structName, opts, rank).Success? <==>
      interfaceName != "" && structName != "" && src.Parsed? && interfaceName in src.decls &&
      DeclMethods(src.decls, rank, interfaceName).Success? &&
      var sigs := DeclMethods(src.decls, rank, interfaceName).value;
      forall k, j :: 0 <= k < |sigs| && 0 <= j < |sigs[k].results| ==> sigs[k].results[j].typ.Ident?
  {
    if interfaceName != "" && structName != "" && src.Parsed? && interfaceName in src.decls {
      var tgt := TargetFor(structName, opts);
      DeclStubsFlatten(src.decls, rank, tgt, interfaceName);
      if DeclMethods(src.decls, rank, interfaceName).Success? {
        var sigs := DeclMethods(src.decls, rank, interfaceName).value;
        SynthesizedAt(tgt, sigs);
        forall k | 0 <= k < |sigs|
          ensures MethodStub(tgt, sigs[k]).Success? <==>
            forall j :: 0 <= j < |sigs[k].results| ==> sigs[k].results[j].typ.Ident?
        {
          MethodStubSingle(tgt, sigs[k]);
          StubFailsIff(tgt.recvName, tgt.structName, sigs[k], tgt.preserve);
        }
      }
    }
  }

  // ----------------------------------------------------------- success

  /** On success the struct declaration is `type structName struct {}` and
      there is one stub per method the interface stands for, in order, with
      that method's name and the receiver `(c *structName)`, where c is
      ReceiverChar(structName). */
  lemma {:induction false} PourSuccessShape(src: Source, interfaceName: string, structName: string, opts: Opts, rank: map<string, nat>)
    requires Resolvable(src, interfaceName, rank)
    requires Poured(src, interfaceName, structName, opts, rank).Success?
    ensures structName != "" && src.Parsed? && interfaceName in src.decls
    ensures DeclMethods(src.decls, rank, interfaceName).Success?
    ensures var (genDecl, funcDecls) := Poured(src, interfaceName, structName, opts, rank).value;
      var sigs := DeclMethods(src.decls, rank, interfaceName).value;
      genDecl.tok == TYPE && |genDecl.specs| == 1 &&
      genDecl.specs[0] == TypeSpec(structName, StructType([])) &&
      |funcDecls| == |sigs| &&
      forall k :: 0 <= k < |sigs| ==>
        funcDecls[k].name == sigs[k].name &&
        funcDecls[k].recv == [Field([[ReceiverChar(structName)]], Star(Ident(structName)))] &&
        Success(funcDecls[k]) == StubbedFunc([ReceiverChar(structName)], structName, sigs[k], opts.preserveParamNames)
  {
    StubsInOrder(src.decls, rank, TargetFor(structName, opts), interfaceName);
  }
}
