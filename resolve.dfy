/** getFuncDecls: the stubs for an interface, walking its members in order. A
    method member yields one stub, an embedded interface is looked up by name
    and its stubs are spliced in where it stands, and any other member shape
    is skipped. */
module Resolve {
  import opened Ast
  import opened Fields
  import opened Stub

  /** What every stub of one generation shares: the struct it is for, the
      receiver's name and whether parameter names are kept. */
  datatype Target = Target(structName: string, recvName: string, preserve: bool)

  /** Two results in sequence: the first failure wins, else the values are
      concatenated. */
  function Splice<T>(a: Result<seq<T>>, b: Result<seq<T>>): (r: Result<seq<T>>)
    ensures r.Success? <==> a.Success? && b.Success?
    ensures r.Success? ==> r.value == a.value + b.value
    ensures a.Failure? ==> r == a
    ensures a.Success? && b.Failure? ==> r == b
  {
    if a.Failure? then a else if b.Failure? then b else Success(a.value + b.value)
  }

  // ------------------------------------------------------------ termination

  /** An embedded member found in the table has a rank below bound. */
  predicate EmbedBelow(table: Table, rank: map<string, nat>, m: Member, bound: nat)
  {
    m.EmbeddedMember? && m.name in table ==> m.name in rank && rank[m.name] < bound
  }

  predicate EmbedsBelow(table: Table, rank: map<string, nat>, ms: seq<Member>, bound: nat)
  {
    forall k :: 0 <= k < |ms| ==> EmbedBelow(table, rank, ms[k], bound)
  }

  /** Every ranked interface embeds only interfaces of lower rank, so
      following embeds from a ranked name ends. The source has no such check:
      a cycle of embeds makes it recurse without bound, until the runtime
      aborts with a stack overflow. */
  predicate Ranked(table: Table, rank: map<string, nat>)
  {
    forall n :: n in rank && n in table && table[n].InterfaceDecl? ==>
      EmbedsBelow(table, rank, table[n].members, rank[n])
  }

  lemma {:induction false} EmbedsBelowPrefix(table: Table, rank: map<string, nat>, ms: seq<Member>, bound: nat, k: nat)
    requires EmbedsBelow(table, rank, ms, bound) && k <= |ms|
    ensures EmbedsBelow(table, rank, ms[..k], bound)
  {
    assert forall i :: 0 <= i < k ==> ms[..k][i] == ms[i];
  }

  // ---------------------------------------------------------- the stubs

  /** The stubs for the type declaration called name. */
  function DeclStubs(table: Table, rank: map<string, nat>, tgt: Target, name: string): (r: Result<seq<FuncDecl>>)
    requires Ranked(table, rank) && name in table && name in rank
    ensures r.Success? ==> table[name].InterfaceDecl?
    ensures r.Failure? ==> WalkError(r.error)
    decreases rank[name], 1, 0
  {
    match table[name]
    case OtherTypeDecl(_) => Failure(NotAnInterface(name))
    case InterfaceDecl(ms) => MembersStubs(table, rank, tgt, ms, rank[name])
  }

  /** The stubs for a list of interface members, in member order. */
  function MembersStubs(table: Table, rank: map<string, nat>, tgt: Target, ms: seq<Member>, bound: nat): (r: Result<seq<FuncDecl>>)
    requires Ranked(table, rank) && EmbedsBelow(table, rank, ms, bound)
    ensures r.Failure? ==> WalkError(r.error)
    decreases bound, 0, |ms|
  {
    if ms == [] then Success([])
    else
      EmbedsBelowPrefix(table, rank, ms, bound, |ms| - 1);
      Splice(MembersStubs(table, rank, tgt, ms[..|ms| - 1], bound),
             MemberStubs(table, rank, tgt, ms[|ms| - 1], bound))
  }

  /** The one stub a method member contributes. */
  function MethodStub(tgt: Target, sig: Signature): Result<seq<FuncDecl>>
  {
    var d :- StubbedFunc(tgt.recvName, tgt.structName, sig, tgt.preserve);
    Success([d])
  }

  /** The stubs one member contributes. */
  function MemberStubs(table: Table, rank: map<string, nat>, tgt: Target, m: Member, bound: nat): (r: Result<seq<FuncDecl>>)
    requires Ranked(table, rank) && EmbedBelow(table, rank, m, bound)
    ensures r.Failure? ==> WalkError(r.error)
    decreases bound, 0, 0
  {
    match m
    case MethodMember(sig) => MethodStub(tgt, sig)
    case EmbeddedMember(n) =>
      if n !in table then Failure(UnresolvedEmbed(n)) else DeclStubs(table, rank, tgt, n)
    case OtherMember(_) => Success([])
  }

  /** The stubs of a concatenation of member lists are the stubs of the
      first list followed by those of the second; a failure in the first
      list is the failure of the whole. */
  lemma {:induction false} MembersStubsAppend(table: Table, rank: map<string, nat>, tgt: Target,
                                              a: seq<Member>, b: seq<Member>, bound: nat)
    requires Ranked(table, rank) && EmbedsBelow(table, rank, a + b, bound)
    ensures EmbedsBelow(table, rank, a, bound) && EmbedsBelow(table, rank, b, bound)
    ensures MembersStubs(table, rank, tgt, a + b, bound) ==
      Splice(MembersStubs(table, rank, tgt, a, bound), MembersStubs(table, rank, tgt, b, bound))
    decreases |b|
  {
    assert forall k :: 0 <= k < |a| ==> a[k] == (a + b)[k];
    assert forall k :: 0 <= k < |b| ==> b[k] == (a + b)[|a| + k];
    if b == [] {
      assert a + b == a;
      SpliceUnit(MembersStubs(table, rank, tgt, a, bound));
    } else {
      var b', last := b[..|b| - 1], b[|b| - 1];
      assert (a + b)[..|a + b| - 1] == a + b';
      assert forall k :: 0 <= k < |b'| ==> b'[k] == (a + b)[|a| + k];
      MembersStubsAppend(table, rank, tgt, a, b', bound);
      SpliceAssoc(MembersStubs(table, rank, tgt, a, bound), MembersStubs(table, rank, tgt, b', bound),
                  MemberStubs(table, rank, tgt, last, bound));
    }
  }

  lemma {:induction false} SpliceUnit<T>(a: Result<seq<T>>)
    ensures Splice(a, Success([])) == a
  {
    if a.Success? {
      assert a.value + [] == a.value;
    }
  }

  lemma {:induction false} SpliceAssoc<T>(a: Result<seq<T>>, b: Result<seq<T>>, c: Result<seq<T>>)
    ensures Splice(Splice(a, b), c) == Splice(a, Splice(b, c))
  {
    if a.Success? && b.Success? && c.Success? {
      assert a.value + b.value + c.value == a.value + (b.value + c.value);
    }
  }

  /** The source's loop: stubs for method members, recursion for embedded
      interfaces, nothing for other shapes. Where the source panics
      (a declaration that is not an interface, an embed with nothing bound
      to its name, a result type that is not an identifier) the model fails. */
  method GetFuncDecls(table: Table, tgt: Target, name: string, ghost rank: map<string, nat>)
    returns (r: Result<seq<FuncDecl>>)
    requires Ranked(table, rank) && name in table && name in rank
    ensures r == DeclStubs(table, rank, tgt, name)
    decreases rank[name]
  {
    var decl := table[name];
    if decl.OtherTypeDecl? {
      return Failure(NotAnInterface(name));
    }
    var ms := decl.members;
    var newFuncDecls: seq<FuncDecl> := [];
    for k := 0 to |ms|
      invariant EmbedsBelow(table, rank, ms[..k], rank[name])
      invariant MembersStubs(table, rank, tgt, ms[..k], rank[name]) == Success(newFuncDecls)
    {
      MembersStubsStep(table, rank, tgt, ms, rank[name], k);
      var contributed: Result<seq<FuncDecl>>;
      match ms[k] {
        case MethodMember(sig) =>
          var d := NewFuncDecl(tgt.recvName, tgt.structName, sig.name, sig.params, sig.results, tgt.preserve);
          contributed := if d.Failure? then Failure(d.error) else Success([d.value]);
        case EmbeddedMember(n) =>
          if n !in table {
            contributed := Failure(UnresolvedEmbed(n));
          } else {
            contributed := GetFuncDecls(table, tgt, n, rank);
          }
        case OtherMember(_) =>
          contributed := Success([]);
      }
      if contributed.Failure? {
        EarlyFailure(table, rank, tgt, ms, rank[name], k);
        return Failure(contributed.error);
      }
      newFuncDecls := newFuncDecls + contributed.value;
    }
    assert ms[..|ms|] == ms;
    return Success(newFuncDecls);
  }

  /** The stubs of the first k + 1 members: those of the first k, then those of member k. */
  lemma {:induction false} MembersStubsStep(table: Table, rank: map<string, nat>, tgt: Target,
                                            ms: seq<Member>, bound: nat, k: nat)
    requires Ranked(table, rank) && EmbedsBelow(table, rank, ms, bound) && k < |ms|
    ensures EmbedBelow(table, rank, ms[k], bound)
    ensures EmbedsBelow(table, rank, ms[..k], bound) && EmbedsBelow(table, rank, ms[..k + 1], bound)
    ensures MembersStubs(table, rank, tgt, ms[..k + 1], bound) ==
      Splice(MembersStubs(table, rank, tgt, ms[..k], bound), MemberStubs(table, rank, tgt, ms[k], bound))
  {
    EmbedsBelowPrefix(table, rank, ms, bound, k);
    EmbedsBelowPrefix(table, rank, ms, bound, k + 1);
    assert ms[..k + 1][..k] == ms[..k];
  }

  /** A failure among the first k + 1 members is the failure of the whole list. */
  lemma {:induction false} EarlyFailure(table: Table, rank: map<string, nat>, tgt: Target,
                                        ms: seq<Member>, bound: nat, k: nat)
    requires Ranked(table, rank) && EmbedsBelow(table, rank, ms, bound) && k < |ms|
    requires EmbedsBelow(table, rank, ms[..k + 1], bound)
    requires MembersStubs(table, rank, tgt, ms[..k + 1], bound).Failure?
    ensures MembersStubs(table, rank, tgt, ms, bound) == MembersStubs(table, rank, tgt, ms[..k + 1], bound)
    decreases |ms|
  {
    if k + 1 < |ms| {
      var init := ms[..|ms| - 1];
      EmbedsBelowPrefix(table, rank, ms, bound, |ms| - 1);
      assert init[..k + 1] == ms[..k + 1];
      EarlyFailure(table, rank, tgt, init, bound, k);
    } else {
      assert ms[..k + 1] == ms;
    }
  }


  // ------------------------------------- flattening, then stubbing

  /** The method signatures the declaration called name stands for, with
      embedded interfaces expanded in place: the flattening alone, without
      building any stub. */
  function DeclMethods(table: Table, rank: map<string, nat>, name: string): Result<seq<Signature>>
    requires Ranked(table, rank) && name in table && name in rank
    decreases rank[name], 1, 0
  {
    match table[name]
    case OtherTypeDecl(_) => Failure(NotAnInterface(name))
    case InterfaceDecl(ms) => MembersMethods(table, rank, ms, rank[name])
  }

  function MembersMethods(table: Table, rank: map<string, nat>, ms: seq<Member>, bound: nat): Result<seq<Signature>>
    requires Ranked(table, rank) && EmbedsBelow(table, rank, ms, bound)
    decreases bound, 0, |ms|
  {
    if ms == [] then Success([])
    else
      EmbedsBelowPrefix(table, rank, ms, bound, |ms| - 1);
      Splice(MembersMethods(table, rank, ms[..|ms| - 1], bound),
             MemberMethods(table, rank, ms[|ms| - 1], bound))
  }

  function MemberMethods(table: Table, rank: map<string, nat>, m: Member, bound: nat): Result<seq<Signature>>
    requires Ranked(table, rank) && EmbedBelow(table, rank, m, bound)
    decreases bound, 0, 0
  {
    match m
    case MethodMember(sig) => Success([sig])
    case EmbeddedMember(n) =>
      if n !in table then Failure(UnresolvedEmbed(n)) else DeclMethods(table, rank, n)
    case OtherMember(_) => Success([])
  }

  /** A list of results in sequence: the first failure, else all values
      concatenated. */
  function Concat<T>(rs: seq<Result<seq<T>>>): Result<seq<T>>
    decreases |rs|
  {
    if rs == [] then Success([]) else Splice(Concat(rs[..|rs| - 1]), rs[|rs| - 1])
  }

  lemma {:induction false} ConcatAppend<T>(a: seq<Result<seq<T>>>, b: seq<Result<seq<T>>>)
    ensures Concat(a + b) == Splice(Concat(a), Concat(b))
    decreases |b|
  {
    if b == [] {
      assert a + b == a;
      SpliceUnit(Concat(a));
    } else {
      var b', last := b[..|b| - 1], b[|b| - 1];
      assert (a + b)[..|a + b| - 1] == a + b';
      ConcatAppend(a, b');
      SpliceAssoc(Concat(a), Concat(b'), last);
    }
  }

  lemma {:induction false} ConcatSingle<T>(r: Result<seq<T>>)
    ensures Concat([r]) == r
  {
    assert [r][..0] == [];
    if r.Success? {
      assert [] + r.value == r.value;
    }
  }

  lemma {:induction false} ConcatSucceeds<T>(rs: seq<Result<seq<T>>>)
    ensures Concat(rs).Success? <==> forall k :: 0 <= k < |rs| ==> rs[k].Success?
    decreases |rs|
  {
    if rs != [] {
      var init := rs[..|rs| - 1];
      ConcatSucceeds(init);
      assert forall k :: 0 <= k < |init| ==> init[k] == rs[k];
    }
  }

  /** Results of one value each concatenate to their values in order. */
  lemma {:induction false} ConcatSingletons<T>(rs: seq<Result<seq<T>>>)
    requires forall k :: 0 <= k < |rs| ==> rs[k].Success? && |rs[k].value| == 1
    ensures Concat(rs).Success? && |Concat(rs).value| == |rs|
    ensures forall k :: 0 <= k < |rs| ==> Concat(rs).value[k] == rs[k].value[0]
    decreases |rs|
  {
    if rs != [] {
      var init := rs[..|rs| - 1];
      assert forall k :: 0 <= k < |init| ==> init[k] == rs[k];
      ConcatSingletons(init);
    }
  }

  /** f applied to each element, in order. */
  function Each<A, B>(f: A -> B, xs: seq<A>): (ys: seq<B>)
    ensures |ys| == |xs|
  {
    seq(|xs|, k requires 0 <= k < |xs| => f(xs[k]))
  }

  lemma {:induction false} EachAppend<A, B>(f: A -> B, a: seq<A>, b: seq<A>)
    ensures Each(f, a + b) == Each(f, a) + Each(f, b)
  {
    forall k | 0 <= k < |a + b| ensures Each(f, a + b)[k] == (Each(f, a) + Each(f, b))[k] {
      if k < |a| {
        assert (a + b)[k] == a[k];
      } else {
        assert (a + b)[k] == b[k - |a|];
      }
    }
  }

  /** The stub result of each signature, in order. */
  function MethodStubs(tgt: Target, sigs: seq<Signature>): (rs: seq<Result<seq<FuncDecl>>>)
    ensures |rs| == |sigs|
  {
    Each((sig: Signature) => MethodStub(tgt, sig), sigs)
  }

  /** One stub per signature, in order; the first failing signature's error. */
  function Synthesized(tgt: Target, sigs: seq<Signature>): Result<seq<FuncDecl>>
  {
    Concat(MethodStubs(tgt, sigs))
  }

  lemma {:induction false} SynthesizedAppend(tgt: Target, a: seq<Signature>, b: seq<Signature>)
    ensures Synthesized(tgt, a + b) == Splice(Synthesized(tgt, a), Synthesized(tgt, b))
  {
    EachAppend((sig: Signature) => MethodStub(tgt, sig), a, b);
    ConcatAppend(MethodStubs(tgt, a), MethodStubs(tgt, b));
  }

  /** The signatures can be stubbed together exactly when each can, and
      then the k-th stub is the stub of the k-th signature. */
  lemma {:induction false} SynthesizedAt(tgt: Target, sigs: seq<Signature>)
    ensures Synthesized(tgt, sigs).Success? <==>
      forall k :: 0 <= k < |sigs| ==> MethodStub(tgt, sigs[k]).Success?
    ensures Synthesized(tgt, sigs).Success? ==>
      |Synthesized(tgt, sigs).value| == |sigs| &&
      forall k :: 0 <= k < |sigs| ==> [Synthesized(tgt, sigs).value[k]] == MethodStub(tgt, sigs[k]).value
  {
    var rs := MethodStubs(tgt, sigs);
    assert forall k :: 0 <= k < |sigs| ==> rs[k] == MethodStub(tgt, sigs[k]);
    ConcatSucceeds(rs);
    if Synthesized(tgt, sigs).Success? {
      forall k | 0 <= k < |rs| ensures rs[k].Success? && |rs[k].value| == 1 {
        MethodStubSingle(tgt, sigs[k]);
      }
      ConcatSingletons(rs);
    }
  }

  lemma {:induction false} MethodStubSingle(tgt: Target, sig: Signature)
    ensures MethodStub(tgt, sig).Success? <==> StubbedFunc(tgt.recvName, tgt.structName, sig, tgt.preserve).Success?
    ensures MethodStub(tgt, sig).Success? ==>
      MethodStub(tgt, sig).value == [StubbedFunc(tgt.recvName, tgt.structName, sig, tgt.preserve).value]
  {
  }

  /** Stubbing while flattening is flattening and then stubbing each method:
      both succeed together and then give the same stubs. Only the error
      reported can differ, because the source reports whichever problem it
      meets first in member order. */
  lemma {:induction false} DeclStubsFlatten(table: Table, rank: map<string, nat>, tgt: Target, name: string)
    requires Ranked(table, rank) && name in table && name in rank
    ensures DeclStubs(table, rank, tgt, name).Success? <==>
      DeclMethods(table, rank, name).Success? && Synthesized(tgt, DeclMethods(table, rank, name).value).Success?
    ensures DeclStubs(table, rank, tgt, name).Success? ==>
      DeclStubs(table, rank, tgt, name).value == Synthesized(tgt, DeclMethods(table, rank, name).value).value
    decreases rank[name], 1, 0
  {
    if table[name].InterfaceDecl? {
      MembersStubsFlatten(table, rank, tgt, table[name].members, rank[name]);
    }
  }

  lemma {:induction false} MembersStubsFlatten(table: Table, rank: map<string, nat>, tgt: Target, ms: seq<Member>, bound: nat)
    requires Ranked(table, rank) && EmbedsBelow(table, rank, ms, bound)
    ensures MembersStubs(table, rank, tgt, ms, bound).Success? <==>
      MembersMethods(table, rank, ms, bound).Success? && Synthesized(tgt, MembersMethods(table, rank, ms, bound).value).Success?
    ensures MembersStubs(table, rank, tgt, ms, bound).Success? ==>
      MembersStubs(table, rank, tgt, ms, bound).value == Synthesized(tgt, MembersMethods(table, rank, ms, bound).value).value
    decreases bound, 0, |ms|
  {
    if ms != [] {
      var init, last := ms[..|ms| - 1], ms[|ms| - 1];
      EmbedsBelowPrefix(table, rank, ms, bound, |ms| - 1);
      MembersStubsFlatten(table, rank, tgt, init, bound);
      MemberStubsFlatten(table, rank, tgt, last, bound);
      var mi, ml := MembersMethods(table, rank, init, bound), MemberMethods(table, rank, last, bound);
      if mi.Success? && ml.Success? {
        SynthesizedAppend(tgt, mi.value, ml.value);
      }
    }
  }

  lemma {:induction false} MemberStubsFlatten(table: Table, rank: map<string, nat>, tgt: Target, m: Member, bound: nat)
    requires Ranked(table, rank) && EmbedBelow(table, rank, m, bound)
    ensures MemberStubs(table, rank, tgt, m, bound).Success? <==>
      MemberMethods(table, rank, m, bound).Success? && Synthesized(tgt, MemberMethods(table, rank, m, bound).value).Success?
    ensures MemberStubs(table, rank, tgt, m, bound).Success? ==>
      MemberStubs(table, rank, tgt, m, bound).value == Synthesized(tgt, MemberMethods(table, rank, m, bound).value).value
    decreases bound, 0, 0
  {
    match m
    case MethodMember(sig) =>
      assert MethodStubs(tgt, [sig]) == [MethodStub(tgt, sig)];
      ConcatSingle(MethodStub(tgt, sig));
    case EmbeddedMember(n) =>
      if n in table {
        DeclStubsFlatten(table, rank, tgt, n);
      }
    case OtherMember(_) =>
  }

  // ------------------------------------------------ what the walk promises

  /** On success there is one stub per flattened method, in order: the stub of
      that method, with its name and the shared receiver. */
  lemma {:induction false} StubsInOrder(table: Table, rank: map<string, nat>, tgt: Target, name: string)
    requires Ranked(table, rank) && name in table && name in rank
    requires DeclStubs(table, rank, tgt, name).Success?
    ensures DeclMethods(table, rank, name).Success?
    ensures var stubs, sigs := DeclStubs(table, rank, tgt, name).value, DeclMethods(table, rank, name).value;
      |stubs| == |sigs| &&
      forall k :: 0 <= k < |sigs| ==>
        StubbedFunc(tgt.recvName, tgt.structName, sigs[k], tgt.preserve) == Success(stubs[k]) &&
        stubs[k].name == sigs[k].name && stubs[k].recv == Receiver(tgt.recvName, tgt.structName)
  {
    DeclStubsFlatten(table, rank, tgt, name);
    var stubs, sigs := DeclStubs(table, rank, tgt, name).value, DeclMethods(table, rank, name).value;
    SynthesizedAt(tgt, sigs);
    forall k | 0 <= k < |sigs|
      ensures StubbedFunc(tgt.recvName, tgt.structName, sigs[k], tgt.preserve) == Success(stubs[k])
      ensures stubs[k].name == sigs[k].name && stubs[k].recv == Receiver(tgt.recvName, tgt.structName)
    {
      MethodStubSingle(tgt, sigs[k]);
      StubShape(tgt.recvName, tgt.structName, sigs[k], tgt.preserve);
    }
  }

  /** An interface whose members are all methods stands for exactly those
      methods, in order. */
  lemma {:induction false} DirectMethods(table: Table, rank: map<string, nat>, ms: seq<Member>, bound: nat)
    requires Ranked(table, rank) && EmbedsBelow(table, rank, ms, bound)
    requires forall k :: 0 <= k < |ms| ==> ms[k].MethodMember?
    ensures MembersMethods(table, rank, ms, bound).Success?
    ensures |MembersMethods(table, rank, ms, bound).value| == |ms|
    ensures forall k :: 0 <= k < |ms| ==> MembersMethods(table, rank, ms, bound).value[k] == ms[k].sig
    decreases |ms|
  {
    if ms != [] {
      var init := ms[..|ms| - 1];
      assert forall k :: 0 <= k < |init| ==> init[k] == ms[k];
      EmbedsBelowPrefix(table, rank, ms, bound, |ms| - 1);
      DirectMethods(table, rank, init, bound);
    }
  }

  /** A member list can be stubbed exactly when each of its members can. */
  lemma {:induction false} MembersStubsSucceed(table: Table, rank: map<string, nat>, tgt: Target, ms: seq<Member>, bound: nat)
    requires Ranked(table, rank) && EmbedsBelow(table, rank, ms, bound)
    ensures MembersStubs(table, rank, tgt, ms, bound).Success? <==>
      forall k :: 0 <= k < |ms| ==> MemberStubs(table, rank, tgt, ms[k], bound).Success?
    decreases |ms|
  {
    if ms != [] {
      var init, last := ms[..|ms| - 1], ms[|ms| - 1];
      EmbedsBelowPrefix(table, rank, ms, bound, |ms| - 1);
      MembersStubsSucceed(table, rank, tgt, init, bound);
      var whole, front := MembersStubs(table, rank, tgt, ms, bound), MembersStubs(table, rank, tgt, init, bound);
      assert whole == Splice(front, MemberStubs(table, rank, tgt, last, bound));
      if whole.Success? {
        forall k | 0 <= k < |ms| ensures MemberStubs(table, rank, tgt, ms[k], bound).Success? {
          if k < |init| {
            assert init[k] == ms[k];
          }
        }
      } else if front.Failure? {
        var k :| 0 <= k < |init| && MemberStubs(table, rank, tgt, init[k], bound).Failure?;
        assert init[k] == ms[k];
      }
    }
  }

  /** An interface that embeds a name with no declaration, or one that is
      not an interface, yields no stubs. */
  lemma {:induction false} BadEmbedFails(table: Table, rank: map<string, nat>, tgt: Target, name: string, k: nat)
    requires Ranked(table, rank) && name in table && name in rank
    requires table[name].InterfaceDecl? && k < |table[name].members|
    requires var m := table[name].members[k];
      m.EmbeddedMember? && (m.name !in table || table[m.name].OtherTypeDecl?)
    ensures DeclStubs(table, rank, tgt, name).Failure?
  {
    MembersStubsSucceed(table, rank, tgt, table[name].members, rank[name]);
  }

  /** The errors the walk can report. */
  predicate WalkError(e: Error)
  {
    e.NotAnInterface? || e.UnresolvedEmbed? || e.UnsupportedResultType?
  }
}
