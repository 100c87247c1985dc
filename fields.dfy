/** Field lists and how the generator splits them: a field with several names
    stands for one entry per name, a field with none for a single entry. */
module Fields {
  import opened Ast

  /** The number of entries one field stands for. */
  function Width(f: Field): nat
  {
    if |f.names| == 0 then 1 else |f.names|
  }

  /** go/ast's FieldList.NumFields: the sum of the widths of the fields. */
  function NumFields(fs: seq<Field>): (n: nat)
    ensures n == 0 <==> fs == []
    decreases |fs|
  {
    if fs == [] then 0 else NumFields(fs[..|fs| - 1]) + Width(fs[|fs| - 1])
  }

  /** One entry of a split field list: at most one name and the field's type. */
  datatype Slot = Slot(name: Option<string>, typ: Expr)

  function FieldSlots(f: Field): (r: seq<Slot>)
    ensures |r| == Width(f)
    ensures forall t :: 0 <= t < |r| ==> r[t].typ == f.typ
    ensures forall t :: 0 <= t < |r| ==> r[t].name == if f.names == [] then None else Some(f.names[t])
  {
    if f.names == [] then [Slot(None, f.typ)]
    else seq(|f.names|, t requires 0 <= t < |f.names| => Slot(Some(f.names[t]), f.typ))
  }

  /** The field list split into one entry per name, in order. */
  function Slots(fs: seq<Field>): (r: seq<Slot>)
    ensures |r| == NumFields(fs)
    decreases |fs|
  {
    if fs == [] then [] else Slots(fs[..|fs| - 1]) + FieldSlots(fs[|fs| - 1])
  }

  function Types(ss: seq<Slot>): (ts: seq<Expr>)
    ensures |ts| == |ss|
  {
    seq(|ss|, k requires 0 <= k < |ss| => ss[k].typ)
  }

  predicate AllIdents(ts: seq<Expr>)
  {
    forall k :: 0 <= k < |ts| ==> ts[k].Ident?
  }

  /** The entry for the t-th name of the j-th field sits at position
      NumFields(fs[..j]) + t: the count runs on across fields. */
  lemma {:induction false} SlotsAt(fs: seq<Field>, j: nat, t: nat)
    requires j < |fs| && t < Width(fs[j])
    ensures NumFields(fs[..j]) + t < NumFields(fs)
    ensures Slots(fs)[NumFields(fs[..j]) + t] == FieldSlots(fs[j])[t]
    decreases |fs|
  {
    var init, last := fs[..|fs| - 1], fs[|fs| - 1];
    var head, tail := Slots(init), FieldSlots(last);
    assert Slots(fs) == head + tail;
    if j == |fs| - 1 {
      assert fs[..j] == init;
      assert |head| == NumFields(fs[..j]);
      IndexRight(head, tail, t);
    } else {
      assert init[..j] == fs[..j] && init[j] == fs[j];
      SlotsAt(init, j, t);
      var k := NumFields(fs[..j]) + t;
      assert k < |head|;
      IndexLeft(head, tail, k);
    }
  }

  lemma {:induction false} IndexLeft(a: seq<Slot>, b: seq<Slot>, k: nat)
    requires k < |a|
    ensures (a + b)[k] == a[k]
  {
  }

  lemma {:induction false} IndexRight(a: seq<Slot>, b: seq<Slot>, k: nat)
    requires k < |b|
    ensures (a + b)[|a| + k] == b[k]
  {
  }

  lemma {:induction false} TypesAppend(a: seq<Slot>, b: seq<Slot>)
    ensures Types(a + b) == Types(a) + Types(b)
  {
  }

  /** The entries of a prefix of the fields are a prefix of the entries. */
  lemma {:induction false} SlotsPrefix(fs: seq<Field>, j: nat)
    requires j <= |fs|
    ensures NumFields(fs[..j]) <= NumFields(fs)
    ensures Slots(fs)[..NumFields(fs[..j])] == Slots(fs[..j])
    decreases |fs|
  {
    if j < |fs| {
      var init := fs[..|fs| - 1];
      var head := Slots(init);
      assert Slots(fs) == head + FieldSlots(fs[|fs| - 1]);
      assert init[..j] == fs[..j];
      SlotsPrefix(init, j);
      assert Slots(fs)[..NumFields(fs[..j])] == head[..NumFields(fs[..j])];
    } else {
      assert fs[..j] == fs;
    }
  }

  /** The split types of a prefix of the fields are a prefix of the split types. */
  lemma {:induction false} TypesPrefix(fs: seq<Field>, j: nat)
    requires j <= |fs|
    ensures NumFields(fs[..j]) <= NumFields(fs)
    ensures Types(Slots(fs))[..NumFields(fs[..j])] == Types(Slots(fs[..j]))
  {
    SlotsPrefix(fs, j);
    var n := NumFields(fs[..j]);
    assert forall k :: 0 <= k < n ==> Types(Slots(fs))[k] == Slots(fs)[k].typ == Slots(fs)[..n][k].typ;
  }

  /** Every split entry has a plain identifier type exactly when every field does. */
  lemma {:induction false} SlotTypesIdents(fs: seq<Field>)
    ensures AllIdents(Types(Slots(fs))) <==> forall j :: 0 <= j < |fs| ==> fs[j].typ.Ident?
    decreases |fs|
  {
    if fs != [] {
      var init, last := fs[..|fs| - 1], fs[|fs| - 1];
      SlotTypesIdents(init);
      var ts := Types(Slots(fs));
      var n := |Slots(init)|;
      assert forall k :: 0 <= k < n ==> ts[k] == Types(Slots(init))[k];
      assert forall k :: n <= k < |ts| ==> ts[k] == last.typ;
      assert ts[n] == last.typ;
      assert forall j :: 0 <= j < |init| ==> init[j] == fs[j];
    }
  }

  /** A field list in which every entry is already split and nameless splits
      into entries carrying exactly the given types. */
  function Unnamed(ts: seq<Expr>): (fl: seq<Field>)
    ensures |fl| == |ts|
  {
    seq(|ts|, k requires 0 <= k < |ts| => Field([], ts[k]))
  }

  lemma {:induction false} UnnamedSlots(ts: seq<Expr>)
    ensures Types(Slots(Unnamed(ts))) == ts
    decreases |ts|
  {
    if ts != [] {
      var init := ts[..|ts| - 1];
      assert Unnamed(ts)[..|ts| - 1] == Unnamed(init);
      UnnamedSlots(init);
    }
  }
}
