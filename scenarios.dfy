/** The scenarios of patrick_test.go, and a few more, worked out on the model:
    the interface `MyInterface` poured into the struct `myStruct`. */
module Scenarios {
  import opened Ast
  import opened Names
  import opened Fields
  import opened Stub
  import opened Resolve
  import opened Patrick

  function Parse(decls: Table): Source { Parsed(decls) }

  const recv: seq<Field> := [Field(["m"], Star(Ident("myStruct")))]

  function Method(name: string, params: seq<Field>, results: seq<Field>): Member
  {
    MethodMember(Signature(name, params, results))
  }

  function StubA(params: seq<Field>, results: seq<Field>, preserve: bool): Result<FuncDecl>
  {
    StubbedFunc("m", "myStruct", Signature("A", params, results), preserve)
  }

  lemma {:induction false} SmallNames()
    ensures Generated("arg", 1) == "arg1" && Generated("arg", 2) == "arg2"
    ensures ValName(1) == "val1" && ValName(2) == "val2"
  {
    assert DigitChar(1) == '1' && DigitChar(2) == '2';
  }

  /** The receiver takes the first byte of the name's encoding: `ñ` is
      encoded as 0xC3 0xB1, so a struct `ñame` gets the receiver `Ã`. */
  lemma {:induction false} NonAsciiReceiver()
    ensures TargetFor("ñame", Opts(false)).recvName == "Ã"
  {
  }

  /** The stub of a method with no parameters and no results. */
  lemma {:induction false} PlainStub(name: string)
    ensures MethodStub(TargetFor("myStruct", Opts(false)), Signature(name, [], [])) ==
      Success([FuncDecl(recv, name, None, None, [])])
  {
    assert TargetFor("myStruct", Opts(false)) == Target("myStruct", "m", false);
  }

  lemma {:induction false} OneMember(table: Table, rank: map<string, nat>, tgt: Target, m: Member, bound: nat)
    requires Ranked(table, rank) && EmbedBelow(table, rank, m, bound)
    ensures EmbedsBelow(table, rank, [m], bound)
    ensures MembersStubs(table, rank, tgt, [m], bound) == MemberStubs(table, rank, tgt, m, bound)
  {
    assert [m][..0] == [];
    var r := MemberStubs(table, rank, tgt, m, bound);
    if r.Success? {
      assert [] + r.value == r.value;
    }
  }

  lemma {:induction false} TwoMembers(table: Table, rank: map<string, nat>, tgt: Target, m0: Member, m1: Member, bound: nat)
    requires Ranked(table, rank) && EmbedBelow(table, rank, m0, bound) && EmbedBelow(table, rank, m1, bound)
    ensures EmbedsBelow(table, rank, [m0, m1], bound)
    ensures MembersStubs(table, rank, tgt, [m0, m1], bound) ==
      Splice(MemberStubs(table, rank, tgt, m0, bound), MemberStubs(table, rank, tgt, m1, bound))
  {
    OneMember(table, rank, tgt, m0, bound);
    assert [m0, m1][..1] == [m0];
  }

  /** `interface { A(); B() }`: two stubs with receiver `(m *myStruct)`, no
      parameters, no results and empty bodies. */
  lemma {:induction false} TwoPlainMethods()
    ensures var src := Parse(map["MyInterface" := InterfaceDecl([Method("A", [], []), Method("B", [], [])])]);
      Poured(src, "MyInterface", "myStruct", Opts(false), map["MyInterface" := 0]) ==
      Success((GenDecl(TYPE, [TypeSpec("myStruct", StructType([]))]),
               [FuncDecl(recv, "A", None, None, []), FuncDecl(recv, "B", None, None, [])]))
  {
    var tgt := TargetFor("myStruct", Opts(false));
    var table, rank := map["MyInterface" := InterfaceDecl([Method("A", [], []), Method("B", [], [])])], map["MyInterface" := 0];
    PlainStub("A");
    PlainStub("B");
    TwoMembers(table, rank, tgt, Method("A", [], []), Method("B", [], []), 0);
    assert [FuncDecl(recv, "A", None, None, [])] + [FuncDecl(recv, "B", None, None, [])] ==
      [FuncDecl(recv, "A", None, None, []), FuncDecl(recv, "B", None, None, [])];
  }

  /** An embedded interface's stubs come where the embed stands. */
  lemma {:induction false} EmbeddedSpliced()
    ensures var src := Parse(map["MyInterface" := InterfaceDecl([EmbeddedMember("Other"), Method("B", [], [])]),
                                 "Other" := InterfaceDecl([Method("A", [], [])])]);
      Poured(src, "MyInterface", "myStruct", Opts(false), map["MyInterface" := 1, "Other" := 0]) ==
      Success((StructDecl("myStruct"), [FuncDecl(recv, "A", None, None, []), FuncDecl(recv, "B", None, None, [])]))
  {
    var tgt := TargetFor("myStruct", Opts(false));
    var table := map["MyInterface" := InterfaceDecl([EmbeddedMember("Other"), Method("B", [], [])]),
                     "Other" := InterfaceDecl([Method("A", [], [])])];
    var rank := map["MyInterface" := 1, "Other" := 0];
    PlainStub("A");
    PlainStub("B");
    OneMember(table, rank, tgt, Method("A", [], []), 0);
    TwoMembers(table, rank, tgt, EmbeddedMember("Other"), Method("B", [], []), 1);
    assert [FuncDecl(recv, "A", None, None, [])] + [FuncDecl(recv, "B", None, None, [])] ==
      [FuncDecl(recv, "A", None, None, []), FuncDecl(recv, "B", None, None, [])];
  }

  /** An embed of a name with no declaration fails the whole generation. */
  lemma {:induction false} UnresolvedEmbedFails()
    ensures var src := Parse(map["MyInterface" := InterfaceDecl([Method("B", [], []), EmbeddedMember("error")])]);
      Poured(src, "MyInterface", "myStruct", Opts(false), map["MyInterface" := 0]) == Failure(UnresolvedEmbed("error"))
  {
    var tgt := TargetFor("myStruct", Opts(false));
    var table, rank := map["MyInterface" := InterfaceDecl([Method("B", [], []), EmbeddedMember("error")])], map["MyInterface" := 0];
    PlainStub("B");
    TwoMembers(table, rank, tgt, Method("B", [], []), EmbeddedMember("error"), 0);
  }

  /** `A(int, string)` gets `A(arg1 int, arg2 string)`. */
  lemma {:induction false} UnnamedParams()
    ensures StubA([Field([], Ident("int")), Field([], Ident("string"))], [], false) ==
      Success(FuncDecl(recv, "A", Some([Field(["arg1"], Ident("int")), Field(["arg2"], Ident("string"))]), None, []))
  {
    var fs := [Field([], Ident("int")), Field([], Ident("string"))];
    SmallNames();
    ParamAt(fs, false, 0, 0);
    ParamAt(fs, false, 1, 0);
    assert fs[..1] == [fs[0]];
    var ps := StubbedParams(fs, false);
    assert |ps| == 2;
    assert ps == [Field(["arg1"], Ident("int")), Field(["arg2"], Ident("string"))];
  }

  /** `A(someInt, anotherInt int)` gets `A(arg1 int, arg2 int)`. */
  lemma {:induction false} SharedTypeParams()
    ensures StubA([Field(["someInt", "anotherInt"], Ident("int"))], [], false) ==
      Success(FuncDecl(recv, "A", Some([Field(["arg1"], Ident("int")), Field(["arg2"], Ident("int"))]), None, []))
  {
    var fs := [Field(["someInt", "anotherInt"], Ident("int"))];
    SmallNames();
    ParamAt(fs, false, 0, 0);
    ParamAt(fs, false, 0, 1);
    var ps := StubbedParams(fs, false);
    assert |ps| == 2;
    assert ps == [Field(["arg1"], Ident("int")), Field(["arg2"], Ident("int"))];
  }

  /** `A(someInt int, someString string)` keeps its names when asked to, and
      otherwise gets `A(arg1 int, arg2 string)`. */
  lemma {:induction false} PreservedNames()
    ensures StubA([Field(["someInt"], Ident("int")), Field(["someString"], Ident("string"))], [], true) ==
      Success(FuncDecl(recv, "A", Some([Field(["someInt"], Ident("int")), Field(["someString"], Ident("string"))]), None, []))
    ensures StubA([Field(["someInt"], Ident("int")), Field(["someString"], Ident("string"))], [], false) ==
      Success(FuncDecl(recv, "A", Some([Field(["arg1"], Ident("int")), Field(["arg2"], Ident("string"))]), None, []))
  {
    var fs := [Field(["someInt"], Ident("int")), Field(["someString"], Ident("string"))];
    SmallNames();
    assert fs[..1] == [fs[0]];
    ParamAt(fs, true, 0, 0);
    ParamAt(fs, true, 1, 0);
    var ps := StubbedParams(fs, true);
    assert |ps| == 2;
    assert ps == [Field(["someInt"], Ident("int")), Field(["someString"], Ident("string"))];
    ParamAt(fs, false, 0, 0);
    ParamAt(fs, false, 1, 0);
    var qs := StubbedParams(fs, false);
    assert qs == [Field(["arg1"], Ident("int")), Field(["arg2"], Ident("string"))];
  }

  /** `A() (int, string)`: nameless results, one placeholder each, returned
      in order. */
  lemma {:induction false} UnnamedResults()
    ensures StubA([], [Field([], Ident("int")), Field([], Ident("string"))], false) ==
      Success(FuncDecl(recv, "A", None, Some([Field([], Ident("int")), Field([], Ident("string"))]),
        [VarDecl("val1", Ident("int")), VarDecl("val2", Ident("string")),
         ReturnStmt([Ident("val1"), Ident("val2")])]))
  {
    TwoResults([Field([], Ident("int")), Field([], Ident("string"))], Ident("int"), Ident("string"));
  }

  /** `A() (someInt int, someString string)`: the names are stripped. */
  lemma {:induction false} NamedResults()
    ensures StubA([], [Field(["someInt"], Ident("int")), Field(["someString"], Ident("string"))], false) ==
      Success(FuncDecl(recv, "A", None, Some([Field([], Ident("int")), Field([], Ident("string"))]),
        [VarDecl("val1", Ident("int")), VarDecl("val2", Ident("string")),
         ReturnStmt([Ident("val1"), Ident("val2")])]))
  {
    TwoResults([Field(["someInt"], Ident("int")), Field(["someString"], Ident("string"))], Ident("int"), Ident("string"));
  }

  /** `A() (someInt, anotherInt int)`: one result per name. */
  lemma {:induction false} SharedTypeResults()
    ensures StubA([], [Field(["someInt", "anotherInt"], Ident("int"))], false) ==
      Success(FuncDecl(recv, "A", None, Some([Field([], Ident("int")), Field([], Ident("int"))]),
        [VarDecl("val1", Ident("int")), VarDecl("val2", Ident("int")),
         ReturnStmt([Ident("val1"), Ident("val2")])]))
  {
    TwoResults([Field(["someInt", "anotherInt"], Ident("int"))], Ident("int"), Ident("int"));
  }

  /** A result list whose two entries have the identifier types t1 and t2. */
  lemma {:induction false} TwoResults(fs: seq<Field>, t1: Expr, t2: Expr)
    requires t1.Ident? && t2.Ident?
    requires Types(Slots(fs)) == [t1, t2]
    ensures StubA([], fs, false) ==
      Success(FuncDecl(recv, "A", None, Some([Field([], t1), Field([], t2)]),
        [VarDecl("val1", t1), VarDecl("val2", t2), ReturnStmt([Ident("val1"), Ident("val2")])]))
  {
    SmallNames();
    var ts := Types(Slots(fs));
    assert AllIdents(ts);
    var (fl, body) := StubbedResults(fs).value;
    assert fl == Unnamed(ts) == [Field([], t1), Field([], t2)];
    assert Ident(t1.name) == t1 && Ident(t2.name) == t2;
    assert Placeholders(ts) == [VarDecl("val1", t1), VarDecl("val2", t2)];
    assert ValIdents(2) == [Ident("val1"), Ident("val2")];
    assert NumFields(fs) == 2;
    assert !(!AllIdents(ts));
    assert Placeholders(ts) + [ReturnStmt(ValIdents(|ts|))] ==
      [VarDecl("val1", t1), VarDecl("val2", t2), ReturnStmt([Ident("val1"), Ident("val2")])];
    assert StubbedResults(fs) == Success(([Field([], t1), Field([], t2)],
      [VarDecl("val1", t1), VarDecl("val2", t2), ReturnStmt([Ident("val1"), Ident("val2")])]));
  }

  /** A result of type `*T` stops generation; a parameter of that type does not. */
  lemma {:induction false} PointerResultFails()
    ensures StubA([], [Field([], Star(Ident("T")))], false) == Failure(UnsupportedResultType(Star(Ident("T"))))
    ensures StubA([Field([], Star(Ident("T")))], [], false).Success?
  {
    ResultFailureAt([Field([], Star(Ident("T")))], 0);
  }
}
