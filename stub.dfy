/** newFuncDecl: one stub method for one interface method. The receiver is a
    pointer to the new struct; parameters are split one per name and renamed
    `arg1`, `arg2`, ... (or keep their names); results are split, lose their
    names, and the body declares `val1`, ... and returns them. */
module Stub {
  import opened Ast
  import opened Names
  import opened Fields

  /** The receiver list `(r *S)`: one field with one name. */
  function Receiver(recvName: string, structName: string): (r: seq<Field>)
    ensures NumFields(r) == 1 && r[0].names == [recvName] && r[0].typ == Star(Ident(structName))
  {
    [Field([recvName], Star(Ident(structName)))]
  }

  // ---------------------------------------------------------------- params

  /** The name of the k-th parameter (k counted from 1). */
  function ParamName(s: Slot, preserve: bool, k: nat): string
  {
    if preserve && s.name.Some? then s.name.value else Generated("arg", k)
  }

  /** Split entries turned into one-name parameter fields, counting on from `done`. */
  function Renamed(ss: seq<Slot>, preserve: bool, done: nat): (ps: seq<Field>)
    ensures |ps| == |ss|
  {
    seq(|ss|, k requires 0 <= k < |ss| => Field([ParamName(ss[k], preserve, done + k + 1)], ss[k].typ))
  }

  /** The parameter list of the stub for the parameter list fs. */
  function StubbedParams(fs: seq<Field>, preserve: bool): (ps: seq<Field>)
    ensures |ps| == NumFields(fs)
    ensures forall k :: 0 <= k < |ps| ==> |ps[k].names| == 1
  {
    Renamed(Slots(fs), preserve, 0)
  }

  lemma {:induction false} RenamedAppend(a: seq<Slot>, b: seq<Slot>, preserve: bool, done: nat)
    ensures Renamed(a + b, preserve, done) == Renamed(a, preserve, done) + Renamed(b, preserve, done + |a|)
  {
    assert forall k :: 0 <= k < |b| ==> (a + b)[|a| + k] == b[k];
  }

  /** Appending a field appends its renamed entries, numbered on from the
      entries before it. */
  lemma {:induction false} StubbedParamsSnoc(fs: seq<Field>, f: Field, preserve: bool)
    ensures StubbedParams(fs + [f], preserve) ==
      StubbedParams(fs, preserve) + Renamed(FieldSlots(f), preserve, NumFields(fs))
    ensures NumFields(fs + [f]) == NumFields(fs) + Width(f)
  {
    assert (fs + [f])[..|fs|] == fs;
    RenamedAppend(Slots(fs), FieldSlots(f), preserve, 0);
  }

  lemma {:induction false} StubbedParamsStep(fs: seq<Field>, j: nat, preserve: bool)
    requires j < |fs|
    ensures StubbedParams(fs[..j + 1], preserve) ==
      StubbedParams(fs[..j], preserve) + Renamed(FieldSlots(fs[j]), preserve, NumFields(fs[..j]))
    ensures NumFields(fs[..j + 1]) == NumFields(fs[..j]) + Width(fs[j])
  {
    assert fs[..j + 1] == fs[..j] + [fs[j]];
    StubbedParamsSnoc(fs[..j], fs[j], preserve);
  }

  /** The params for the first t names of a named field, counting on from `done`. */
  function NamedPrefix(f: Field, preserve: bool, done: nat, t: nat): (ps: seq<Field>)
    requires t <= |f.names|
    ensures |ps| == t
  {
    seq(t, u requires 0 <= u < t => Field([if preserve then f.names[u] else Generated("arg", done + u + 1)], f.typ))
  }

  lemma {:induction false} NamedPrefixSnoc(f: Field, preserve: bool, done: nat, t: nat)
    requires t < |f.names|
    ensures NamedPrefix(f, preserve, done, t + 1) == NamedPrefix(f, preserve, done, t) +
      [Field([if preserve then f.names[t] else Generated("arg", done + t + 1)], f.typ)]
  {
  }

  lemma {:induction false} NamedPrefixComplete(f: Field, preserve: bool, done: nat)
    requires f.names != []
    ensures NamedPrefix(f, preserve, done, |f.names|) == Renamed(FieldSlots(f), preserve, done)
  {
  }

  /** The loop over the names of one named parameter field: each name takes
      the next count, and keeps its own name when names are preserved. */
  method AppendNamed(field: Field, preserve: bool, i0: nat, fl0: seq<Field>) returns (i: nat, fl: seq<Field>)
    requires field.names != []
    ensures i == i0 + |field.names|
    ensures fl == fl0 + Renamed(FieldSlots(field), preserve, i0)
  {
    i, fl := i0, fl0;
    for t := 0 to |field.names|
      invariant i == i0 + t
      invariant fl == fl0 + NamedPrefix(field, preserve, i0, t)
    {
      i := i + 1;
      var varName;
      if preserve {
        varName := field.names[t];
      } else {
        varName := Generated("arg", i);
      }
      NamedPrefixSnoc(field, preserve, i0, t);
      fl := fl + [Field([varName], field.typ)];
    }
    NamedPrefixComplete(field, preserve, i0);
  }

  /** The loop over the parameter fields (the counter i is never reset
      between fields). */
  method BuildParams(params: seq<Field>, preserve: bool) returns (fl: seq<Field>)
    ensures fl == StubbedParams(params, preserve)
  {
    fl := [];
    var i: nat := 0;
    for j := 0 to |params|
      invariant i == NumFields(params[..j])
      invariant fl == StubbedParams(params[..j], preserve)
    {
      var field := params[j];
      StubbedParamsStep(params, j, preserve);
      if |field.names| > 0 {
        i, fl := AppendNamed(field, preserve, i, fl);
      } else {
        i := i + 1;
        fl := fl + [Field([Generated("arg", i)], field.typ)];
      }
    }
    assert params[..|params|] == params;
  }

  /** The parameter for the t-th name of the j-th field is the
      (NumFields(fs[..j]) + t + 1)-th: it keeps its name when names are
      preserved and the field has names, else it is `arg<k>`, and it keeps
      the field's type unchanged. */
  lemma {:induction false} ParamAt(fs: seq<Field>, preserve: bool, j: nat, t: nat)
    requires j < |fs| && t < Width(fs[j])
    ensures var k := NumFields(fs[..j]) + t;
      k < |StubbedParams(fs, preserve)| &&
      StubbedParams(fs, preserve)[k] ==
        Field([if preserve && fs[j].names != [] then fs[j].names[t] else Generated("arg", k + 1)], fs[j].typ)
  {
    SlotsAt(fs, j, t);
    var k := NumFields(fs[..j]) + t;
    var s := Slots(fs)[k];
    assert s == FieldSlots(fs[j])[t];
    assert s.typ == fs[j].typ;
    assert s.name == if fs[j].names == [] then None else Some(fs[j].names[t]);
    assert StubbedParams(fs, preserve)[k] == Field([ParamName(s, preserve, k + 1)], s.typ);
  }

  /** Without preserved names no two parameters share a name. */
  lemma {:induction false} GeneratedParamsDistinct(fs: seq<Field>)
    ensures forall i, j :: 0 <= i < j < |StubbedParams(fs, false)| ==>
      StubbedParams(fs, false)[i].names != StubbedParams(fs, false)[j].names
  {
    var ps := StubbedParams(fs, false);
    forall i, j | 0 <= i < j < |ps| ensures ps[i].names != ps[j].names {
      if ps[i].names == ps[j].names {
        GeneratedInjective("arg", i + 1, j + 1);
      }
    }
  }

  /** All names of the fields fs, in order. */
  function AllNames(fs: seq<Field>): seq<string>
    decreases |fs|
  {
    if fs == [] then [] else AllNames(fs[..|fs| - 1]) + fs[|fs| - 1].names
  }

  /** With preserved names and every field named, the parameters carry
      exactly the source's names, in order. */
  lemma {:induction false} PreservedParamNames(fs: seq<Field>)
    requires forall j :: 0 <= j < |fs| ==> fs[j].names != []
    ensures |StubbedParams(fs, true)| == |AllNames(fs)|
    ensures forall k :: 0 <= k < |AllNames(fs)| ==> StubbedParams(fs, true)[k].names == [AllNames(fs)[k]]
    decreases |fs|
  {
    if fs != [] {
      var init, last := fs[..|fs| - 1], fs[|fs| - 1];
      assert forall j :: 0 <= j < |init| ==> init[j] == fs[j];
      PreservedParamNames(init);
      var head, tail := Slots(init), FieldSlots(last);
      var names, ps := AllNames(fs), StubbedParams(fs, true);
      var n := |AllNames(init)|;
      assert Slots(fs) == head + tail;
      assert names == AllNames(init) + last.names;
      forall k | 0 <= k < |names| ensures ps[k].names == [names[k]] {
        var slot := Slots(fs)[k];
        assert ps[k].names == [ParamName(slot, true, k + 1)];
        if k < n {
          assert slot == head[k];
          assert StubbedParams(init, true)[k].names == [ParamName(head[k], true, k + 1)];
          assert names[k] == AllNames(init)[k];
        } else {
          assert slot == tail[k - n];
          assert names[k] == last.names[k - n];
        }
      }
    }
  }

  // --------------------------------------------------------------- results

  /** The k-th placeholder variable (k counted from 1). */
  function ValName(k: nat): string
  {
    Generated("val", k)
  }

  /** `var name T`, with no initial value. */
  function VarDecl(name: string, typ: Expr): (d: Stmt)
    ensures d.DeclStmt? && d.decl.tok == VAR && |d.decl.specs| == 1
    ensures d.decl.specs[0] == ValueSpec([name], typ)
  {
    DeclStmt(GenDecl(VAR, [ValueSpec([name], typ)]))
  }

  /** One placeholder declaration per result type, typed by the type's name. */
  function Placeholders(ts: seq<Expr>): (ss: seq<Stmt>)
    requires AllIdents(ts)
    ensures |ss| == |ts|
  {
    seq(|ts|, k requires 0 <= k < |ts| => VarDecl(ValName(k + 1), Ident(ts[k].name)))
  }

  /** The identifiers `val1` .. `val<n>`. */
  function ValIdents(n: nat): (es: seq<Expr>)
    ensures |es| == n
  {
    seq(n, k requires 0 <= k < n => Ident(ValName(k + 1)))
  }

  /** The position of the first type in ts that is not a plain identifier. */
  function FirstNonIdent(ts: seq<Expr>): (k: nat)
    requires !AllIdents(ts)
    ensures k < |ts| && !ts[k].Ident? && AllIdents(ts[..k])
    decreases |ts|
  {
    if !ts[0].Ident? then 0
    else
      var k := 1 + FirstNonIdent(ts[1..]);
      assert forall i :: 1 <= i < k ==> ts[..k][i] == ts[1..][..k - 1][i - 1];
      k
  }

  /** The result list and the body of the stub for the result list fs. */
  function StubbedResults(fs: seq<Field>): (r: Result<(seq<Field>, seq<Stmt>)>)
    ensures r.Failure? ==> r.error.UnsupportedResultType? && !r.error.typ.Ident?
    ensures r.Success? ==> |r.value.0| == NumFields(fs) && |r.value.1| == NumFields(fs) + 1
  {
    var ts := Types(Slots(fs));
    if !AllIdents(ts) then Failure(UnsupportedResultType(ts[FirstNonIdent(ts)]))
    else Success((Unnamed(ts), Placeholders(ts) + [ReturnStmt(ValIdents(|ts|))]))
  }

  /** Recording one more plain identifier type grows each piece by one entry. */
  lemma {:induction false} RecordedStep(ts: seq<Expr>, typ: Expr)
    requires AllIdents(ts) && typ.Ident?
    ensures AllIdents(ts + [typ])
    ensures Unnamed(ts + [typ]) == Unnamed(ts) + [Field([], typ)]
    ensures Placeholders(ts + [typ]) == Placeholders(ts) + [VarDecl(ValName(|ts| + 1), Ident(typ.name))]
    ensures ValIdents(|ts| + 1) == ValIdents(|ts|) + [Ident(ValName(|ts| + 1))]
  {
    assert forall k :: 0 <= k < |ts| ==> (ts + [typ])[k] == ts[k];
  }

  /** The state the source's recordField closure captures: the counter, the
      result list, the declarations and the returned identifiers. */
  class ResultRecorder {
    var i: nat
    var fl: seq<Field>
    var stmts: seq<Stmt>
    var returned: seq<Expr>

    /** The recorder holds exactly the pieces for the result types ts. */
    ghost predicate Tracks(ts: seq<Expr>)
      reads this
    {
      AllIdents(ts) && i == |ts| && fl == Unnamed(ts) &&
      stmts == Placeholders(ts) && returned == ValIdents(|ts|)
    }

    constructor ()
      ensures Tracks([])
    {
      i := 0;
      fl := [];
      stmts := [];
      returned := [];
    }

    /** Records one result entry of type field.typ; ok is false where the
        source panics, because the type is not a plain identifier. */
    method RecordField(field: Field) returns (ok: bool)
      modifies this
      ensures i == old(i) + 1
      ensures fl == old(fl) + [Field([], field.typ)]
      ensures ok == field.typ.Ident?
      ensures ok ==> stmts == old(stmts) + [VarDecl(ValName(i), Ident(field.typ.name))]
      ensures ok ==> returned == old(returned) + [Ident(ValName(i))]
      ensures !ok ==> stmts == old(stmts) && returned == old(returned)
    {
      i := i + 1;
      fl := fl + [Field([], field.typ)];
      var varName := ValName(i);
      if !field.typ.Ident? {
        return false;
      }
      stmts := stmts + [VarDecl(varName, Ident(field.typ.name))];
      returned := returned + [Ident(varName)];
      return true;
    }
  }

  function Repeat(e: Expr, n: nat): (es: seq<Expr>)
    ensures |es| == n
  {
    seq(n, _ => e)
  }

  lemma {:induction false} RepeatSnoc(pre: seq<Expr>, e: Expr, t: nat)
    ensures pre + Repeat(e, t) + [e] == pre + Repeat(e, t + 1)
  {
  }

  /** The split types of the first j + 1 fields: those of the first j fields,
      then the type of field j once per name, and at least once. */
  lemma {:induction false} TypesStep(fs: seq<Field>, j: nat)
    requires j < |fs|
    ensures Types(Slots(fs[..j + 1])) == Types(Slots(fs[..j])) + [fs[j].typ] + Repeat(fs[j].typ, Width(fs[j]) - 1)
  {
    assert fs[..j + 1][..j] == fs[..j];
    var a, b := Slots(fs[..j]), FieldSlots(fs[j]);
    TypesAppend(a, b);
    RepeatCons(fs[j].typ, Width(fs[j]));
  }

  lemma {:induction false} RepeatCons(e: Expr, n: nat)
    requires n >= 1
    ensures [e] + Repeat(e, n - 1) == Repeat(e, n)
  {
  }

  /** The inner loop over the names after a field's first: one more entry of
      the field's type for each. */
  method RecordRest(rec: ResultRecorder, field: Field, ghost ts: seq<Expr>)
    requires rec.Tracks(ts) && field.typ.Ident?
    modifies rec
    ensures rec.Tracks(ts + Repeat(field.typ, Width(field) - 1))
  {
    ghost var cur := ts;
    var t := 1;
    while t < |field.names|
      invariant 1 <= t <= Width(field)
      invariant cur == ts + Repeat(field.typ, t - 1)
      invariant rec.Tracks(cur)
    {
      var _ := rec.RecordField(field);
      RecordedStep(cur, field.typ);
      RepeatSnoc(ts, field.typ, t - 1);
      cur := cur + [field.typ];
      t := t + 1;
    }
  }

  /** The loop over the result fields: each field is recorded once, then
      once more for every name after its first. */
  method BuildResults(results: seq<Field>) returns (r: Result<(seq<Field>, seq<Stmt>)>)
    ensures r == StubbedResults(results)
  {
    var rec := new ResultRecorder();
    ghost var ts: seq<Expr> := [];
    for j := 0 to |results|
      invariant ts == Types(Slots(results[..j]))
      invariant rec.Tracks(ts)
    {
      var field := results[j];
      var ok := rec.RecordField(field);
      if !ok {
        ResultFailureAt(results, j);
        return Failure(UnsupportedResultType(field.typ));
      }
      RecordedStep(ts, field.typ);
      RecordRest(rec, field, ts + [field.typ]);
      TypesStep(results, j);
      ts := ts + [field.typ] + Repeat(field.typ, Width(field) - 1);
    }
    assert results[..|results|] == results;
    StubbedResultsTracked(results, ts);
    return Success((rec.fl, rec.stmts + [ReturnStmt(rec.returned)]));
  }

  lemma {:induction false} StubbedResultsTracked(fs: seq<Field>, ts: seq<Expr>)
    requires ts == Types(Slots(fs)) && AllIdents(ts)
    ensures StubbedResults(fs) == Success((Unnamed(ts), Placeholders(ts) + [ReturnStmt(ValIdents(|ts|))]))
  {
  }

  /** FirstNonIdent is the only position that is not an identifier and has
      only identifiers before it. */
  lemma {:induction false} FirstNonIdentUnique(ts: seq<Expr>, n: nat)
    requires n < |ts| && !ts[n].Ident? && AllIdents(ts[..n])
    ensures FirstNonIdent(ts) == n
  {
    var k := FirstNonIdent(ts);
    assert forall i :: 0 <= i < n ==> ts[i] == ts[..n][i];
    assert forall i :: 0 <= i < k ==> ts[i] == ts[..k][i];
  }

  /** When the fields before j have plain identifier types and field j does
      not, generation fails with the type of field j. */
  lemma {:induction false} ResultFailureAt(fs: seq<Field>, j: nat)
    requires j < |fs| && !fs[j].typ.Ident?
    requires AllIdents(Types(Slots(fs[..j])))
    ensures StubbedResults(fs) == Failure(UnsupportedResultType(fs[j].typ))
  {
    var ts := Types(Slots(fs));
    var n := NumFields(fs[..j]);
    SlotsAt(fs, j, 0);
    TypesPrefix(fs, j);
    FirstNonIdentUnique(ts, n);
  }

  // ----------------------------------------------------------- the method

  /** The stub method for one interface method signature. */
  function StubbedFunc(recvName: string, structName: string, sig: Signature, preserve: bool): (r: Result<FuncDecl>)
    ensures r.Failure? ==> r.error.UnsupportedResultType?
    ensures r.Success? ==> r.value.name == sig.name && r.value.recv == Receiver(recvName, structName)
  {
    var params := if NumFields(sig.params) > 0 then Some(StubbedParams(sig.params, preserve)) else None;
    var decl := FuncDecl(Receiver(recvName, structName), sig.name, params, None, []);
    if NumFields(sig.results) == 0 then Success(decl)
    else
      var stub :- StubbedResults(sig.results);
      Success(decl.(results := Some(stub.0), body := stub.1))
  }

  method NewFuncDecl(recvName: string, structName: string, funcName: string,
                     params: seq<Field>, results: seq<Field>, preserve: bool)
    returns (r: Result<FuncDecl>)
    ensures r == StubbedFunc(recvName, structName, Signature(funcName, params, results), preserve)
  {
    var funcDecl := FuncDecl(Receiver(recvName, structName), funcName, None, None, []);
    if NumFields(params) > 0 {
      var fl := BuildParams(params, preserve);
      funcDecl := funcDecl.(params := Some(fl));
    }
    if NumFields(results) > 0 {
      var stub := BuildResults(results);
      if stub.Failure? {
        return Failure(stub.error);
      }
      funcDecl := funcDecl.(results := Some(stub.value.0), body := stub.value.1);
    }
    return Success(funcDecl);
  }

  // ----------------------------------------------------- what a stub is

  /** The body declares one placeholder per result, typed as that result, and
      its last statement returns exactly those placeholders, in order. */
  predicate DeclaresThenReturns(fl: seq<Field>, body: seq<Stmt>)
  {
    |body| == |fl| + 1 &&
    body[|fl|] == ReturnStmt(ValIdents(|fl|)) &&
    forall k :: 0 <= k < |fl| ==> body[k] == VarDecl(ValName(k + 1), fl[k].typ)
  }

  /** A stub's result list has one nameless field per split result entry and
      its body declares and returns a placeholder for each. */
  lemma {:induction false} ResultStubShape(fs: seq<Field>)
    requires StubbedResults(fs).Success?
    ensures var (fl, body) := StubbedResults(fs).value;
      |fl| == NumFields(fs) &&
      (forall k :: 0 <= k < |fl| ==> fl[k].names == []) &&
      DeclaresThenReturns(fl, body)
  {
    var ts := Types(Slots(fs));
    var (fl, body) := StubbedResults(fs).value;
    forall k | 0 <= k < |fl| ensures body[k] == VarDecl(ValName(k + 1), fl[k].typ) {
      assert ts[k].Ident?;
      assert Ident(ts[k].name) == ts[k];
    }
  }

  /** The result entry for the t-th name of the j-th field is the
      (NumFields(fs[..j]) + t + 1)-th: a nameless field of the same type,
      declared as `val<k>`. */
  lemma {:induction false} ResultAt(fs: seq<Field>, j: nat, t: nat)
    requires StubbedResults(fs).Success?
    requires j < |fs| && t < Width(fs[j])
    ensures var k := NumFields(fs[..j]) + t;
      var (fl, body) := StubbedResults(fs).value;
      k < |fl| && fl[k] == Field([], fs[j].typ) && body[k] == VarDecl(ValName(k + 1), fs[j].typ)
  {
    SlotsAt(fs, j, t);
    ResultStubShape(fs);
  }

  /** The placeholder variables have pairwise distinct names. */
  lemma {:induction false} PlaceholdersDistinct(fs: seq<Field>)
    requires StubbedResults(fs).Success?
    ensures var body := StubbedResults(fs).value.1;
      forall i, j :: 0 <= i < j < |body| - 1 ==>
        body[i].DeclStmt? && body[j].DeclStmt? &&
        body[i].decl.specs[0].names != body[j].decl.specs[0].names
  {
    var body := StubbedResults(fs).value.1;
    ResultStubShape(fs);
    forall i, j | 0 <= i < j < |body| - 1
      ensures body[i].DeclStmt? && body[j].DeclStmt? &&
              body[i].decl.specs[0].names != body[j].decl.specs[0].names
    {
      if body[i].decl.specs[0].names == body[j].decl.specs[0].names {
        GeneratedInjective("val", i + 1, j + 1);
      }
    }
  }

  /** Result stubbing fails exactly when some result field's type is not a
      plain identifier. */
  lemma {:induction false} ResultsFailIff(fs: seq<Field>)
    ensures StubbedResults(fs).Failure? <==> exists j :: 0 <= j < |fs| && !fs[j].typ.Ident?
  {
    SlotTypesIdents(fs);
  }

  /** Splitting the results and dropping their names first changes nothing:
      only the sequence of result types matters. */
  lemma {:induction false} SplitAndStripFirst(fs: seq<Field>)
    ensures StubbedResults(Unnamed(Types(Slots(fs)))) == StubbedResults(fs)
  {
    UnnamedSlots(Types(Slots(fs)));
  }

  /** A stub fails exactly when one of its result types is not a plain
      identifier; parameter types are never checked. */
  lemma {:induction false} StubFailsIff(recvName: string, structName: string, sig: Signature, preserve: bool)
    ensures StubbedFunc(recvName, structName, sig, preserve).Failure? <==>
      exists j :: 0 <= j < |sig.results| && !sig.results[j].typ.Ident?
  {
    ResultsFailIff(sig.results);
  }

  /** A stub keeps the method's name and has the given receiver; an empty
      parameter list gives no parameter list, and an empty result list no
      result list and an empty body. */
  lemma {:induction false} StubShape(recvName: string, structName: string, sig: Signature, preserve: bool)
    requires StubbedFunc(recvName, structName, sig, preserve).Success?
    ensures var d := StubbedFunc(recvName, structName, sig, preserve).value;
      d.name == sig.name && d.recv == Receiver(recvName, structName) &&
      (d.params.None? <==> sig.params == []) &&
      (d.results.None? <==> sig.results == []) &&
      (sig.results == [] ==> d.body == []) &&
      (sig.params != [] ==> d.params == Some(StubbedParams(sig.params, preserve))) &&
      (sig.results != [] ==> d.results == Some(StubbedResults(sig.results).value.0) &&
                             d.body == StubbedResults(sig.results).value.1)
  {
  }
}
