/** The reflective record handler of simple_class_obj.py.

  A simple class is one of eight fixed domain classes. Its used size is the sum,
  over the fields gdb lists for its type, of each field's used
  size: a static field (one without a byte position) adds nothing, a base-class
  slot adds the used size of the same object read at the base type, and any other
  field adds the used size of the member `(obj).name` at its declared type. The
  handler asks `common_helpers.get_instance_size` for those sizes; that module is
  not part of this model, so the handler takes it as the parameter `sizer`.
 */
module SimpleClass {
  import opened Outcomes
  import opened Inspect
  import opened Classifier
  import UsedSize
  import UsedSizeFacts

  const SimpleTypes: seq<string> := [
    "CMasternode", "CMasternodeVerification",
    "CMasternodeBroadcast", "CMasternodeIndex", "CMasternodePing",
    "CMasternodeMan", "CDarksendQueue", "CDarkSendEntry"]

  /** `SimpleClassObj.is_this_type`: the printed type name is one of the list. */
  predicate IsThisType(t: TypeDesc)
  {
    t.name in SimpleTypes
  }

  /** What the handler asks of `get_instance_size`: the used size of an object
      expression at a type. */
  type Sizer = (Ref, TypeDesc) -> SizeResult

  /** What an instance field adds: a base-class slot is the same object at the
      base type; a data member is the member at its declared type. */
  function FieldTerm(sizer: Sizer, obj: Ref, f: Field): SizeResult
  {
    if f.isBaseClass then sizer(obj, f.ty) else sizer(Dot(obj, f.name), f.ty)
  }

  function FieldTerms(sizer: Sizer, obj: Ref): Field -> SizeResult
  {
    f => FieldTerm(sizer, obj, f)
  }

  /** The fields with a byte position, in declaration order. */
  function InstanceFields(fs: seq<Field>): (r: seq<Field>)
    ensures |r| <= |fs|
    ensures forall i :: 0 <= i < |r| ==> r[i].hasBitpos && r[i] in fs
  {
    if fs == [] then [] else (if fs[0].hasBitpos then [fs[0]] else []) + InstanceFields(fs[1..])
  }

  /** The used size a simple class should have: every instance field's term, once,
      in declaration order. */
  function ClassSize(sizer: Sizer, obj: Ref, t: TypeDesc): SizeResult
  {
    SumOf(FieldTerms(sizer, obj), InstanceFields(t.fields))
  }

  /** `SimpleClassObj.get_used_size`: one pass over the fields, skipping static
      ones. It adds exactly the instance fields' terms, in order. */
  method GetUsedSize(sizer: Sizer, obj: Ref, t: TypeDesc) returns (size: SizeResult)
    ensures size == ClassSize(sizer, obj, t)
  {
    var fields := t.fields;
    ghost var term := FieldTerms(sizer, obj);
    size := Size(0);
    var i := 0;
    while i < |fields|
      invariant 0 <= i <= |fields|
      invariant size == SumOf(term, InstanceFields(fields[..i]))
    {
      var f := fields[i];
      InstanceFieldsStep(term, fields, i);
      if !f.hasBitpos {
        i := i + 1;
        continue;
      }
      if f.isBaseClass {
        size := Plus(size, sizer(obj, f.ty));
        i := i + 1;
        continue;
      }
      size := Plus(size, sizer(Dot(obj, f.name), f.ty));
      i := i + 1;
    }
    assert fields[..|fields|] == fields;
  }

  /** One more field in the loop: an instance field adds its term, a static field
      nothing. */
  lemma InstanceFieldsStep(term: Field -> SizeResult, fs: seq<Field>, i: nat)
    requires i < |fs|
    ensures SumOf(term, InstanceFields(fs[..i + 1]))
            == if fs[i].hasBitpos then Plus(SumOf(term, InstanceFields(fs[..i])), term(fs[i]))
               else SumOf(term, InstanceFields(fs[..i]))
  {
    var f := fs[i];
    assert fs[..i + 1] == fs[..i] + [f];
    InstanceFieldsConcat(fs[..i], [f]);
    assert InstanceFields([f]) == if f.hasBitpos then [f] else [];
    if f.hasBitpos {
      SumOfSnoc(term, InstanceFields(fs[..i]), f);
    } else {
      assert InstanceFields(fs[..i]) + [] == InstanceFields(fs[..i]);
    }
  }

  lemma {:induction false} InstanceFieldsConcat(a: seq<Field>, b: seq<Field>)
    ensures InstanceFields(a + b) == InstanceFields(a) + InstanceFields(b)
  {
    if a == [] {
      assert a + b == b;
    } else {
      assert (a + b)[0] == a[0];
      assert (a + b)[1..] == a[1..] + b;
      InstanceFieldsConcat(a[1..], b);
    }
  }

  /** A field is kept as often as it occurs when it has a byte position, and never
      otherwise. */
  lemma {:induction false} InstanceFieldsCount(fs: seq<Field>, f: Field)
    ensures multiset(InstanceFields(fs))[f] == if f.hasBitpos then multiset(fs)[f] else 0
  {
    if fs != [] {
      InstanceFieldsCount(fs[1..], f);
      assert fs == [fs[0]] + fs[1..];
      assert multiset(fs) == multiset{fs[0]} + multiset(fs[1..]);
    }
  }

  /** The handler succeeds exactly when every instance field's term does, and then
      adds each instance field's bytes once. */
  lemma ClassSizeCharacterized(sizer: Sizer, obj: Ref, t: TypeDesc)
    ensures ClassSize(sizer, obj, t).Size? <==>
            forall i :: 0 <= i < |t.fields| && t.fields[i].hasBitpos ==> FieldTerm(sizer, obj, t.fields[i]).Size?
    ensures ClassSize(sizer, obj, t).Size? ==>
            ClassSize(sizer, obj, t).bytes == Bytes(FieldTerms(sizer, obj), InstanceFields(t.fields))
  {
    var term := FieldTerms(sizer, obj);
    var fs := t.fields;
    var inst := InstanceFields(fs);
    SumOfCharacterized(term, inst);
    if AllSized(term, inst) {
      forall i | 0 <= i < |fs| && fs[i].hasBitpos
        ensures term(fs[i]).Size?
      {
        InstanceFieldsCount(fs, fs[i]);
        assert fs[i] in multiset(inst);
        assert fs[i] in inst;
      }
    }
    if forall i :: 0 <= i < |fs| && fs[i].hasBitpos ==> term(fs[i]).Size? {
      forall j | 0 <= j < |inst|
        ensures term(inst[j]).Size?
      {
        var k :| 0 <= k < |fs| && fs[k] == inst[j];
      }
    }
  }

  /** Static fields add nothing: a type whose fields all lack a byte position has
      used size 0, whatever the object. */
  lemma {:induction false} NoInstanceFieldsIsZero(sizer: Sizer, obj: Ref, t: TypeDesc)
    requires forall i :: 0 <= i < |t.fields| ==> !t.fields[i].hasBitpos
    ensures ClassSize(sizer, obj, t) == Size(0)
  {
    StaticFieldsAreDropped(t.fields);
  }

  lemma {:induction false} StaticFieldsAreDropped(fs: seq<Field>)
    requires forall i :: 0 <= i < |fs| ==> !fs[i].hasBitpos
    ensures InstanceFields(fs) == []
  {
    if fs != [] {
      assert forall i :: 0 <= i < |fs[1..]| ==> fs[1..][i] == fs[i + 1];
      StaticFieldsAreDropped(fs[1..]);
    }
  }

  /** Declaring the same fields in another order changes neither whether the handler
      succeeds nor the size it reports: every field is counted exactly once. */
  lemma FieldOrderIsIrrelevant(sizer: Sizer, obj: Ref, t1: TypeDesc, t2: TypeDesc)
    requires multiset(t1.fields) == multiset(t2.fields)
    ensures ClassSize(sizer, obj, t1).Size? <==> ClassSize(sizer, obj, t2).Size?
    ensures ClassSize(sizer, obj, t1).Size? ==> ClassSize(sizer, obj, t1).bytes == ClassSize(sizer, obj, t2).bytes
  {
    var a := InstanceFields(t1.fields);
    var b := InstanceFields(t2.fields);
    forall f ensures multiset(a)[f] == multiset(b)[f] {
      InstanceFieldsCount(t1.fields, f);
      InstanceFieldsCount(t2.fields, f);
    }
    assert multiset(a) == multiset(b);
    SumOfPermutation(FieldTerms(sizer, obj), a, b);
  }

  /** The handler wired to the used-size calculator, as gdb runs it. */
  function Calculator(env: map<string, TypeDesc>): Sizer
  {
    (o, ft) => UsedSize.GetInstanceSize(env, o, ft)
  }

  /** The sum of the declared sizes of some fields. */
  function DeclaredBytes(fs: seq<Field>): nat
  {
    if fs == [] then 0 else fs[0].ty.sizeof + DeclaredBytes(fs[1..])
  }

  /** Fields of types no handler accepts add their `sizeof`, read or not. */
  lemma {:induction false} PlainFieldsAddTheirSizeof(env: map<string, TypeDesc>, obj: Ref, fs: seq<Field>)
    requires forall i :: 0 <= i < |fs| ==> !IsSpecial(fs[i].ty)
    ensures SumOf(FieldTerms(Calculator(env), obj), fs) == Size(DeclaredBytes(fs))
  {
    if fs != [] {
      var f := fs[0];
      UsedSizeFacts.NonSpecialIsSizeof(env, obj, f.ty);
      UsedSizeFacts.NonSpecialIsSizeof(env, Dot(obj, f.name), f.ty);
      assert forall i :: 0 <= i < |fs[1..]| ==> fs[1..][i] == fs[i + 1];
      PlainFieldsAddTheirSizeof(env, obj, fs[1..]);
    }
  }

  /** With no special field, the used size is the sum of the instance fields'
      declared sizes: base-class slots count their base's size once and static
      fields nothing. */
  lemma PlainClassSize(env: map<string, TypeDesc>, obj: Ref, t: TypeDesc)
    requires forall i :: 0 <= i < |t.fields| ==> !IsSpecial(t.fields[i].ty)
    ensures ClassSize(Calculator(env), obj, t) == Size(DeclaredBytes(InstanceFields(t.fields)))
  {
    var inst := InstanceFields(t.fields);
    forall i | 0 <= i < |inst| ensures !IsSpecial(inst[i].ty) {
      var k :| 0 <= k < |t.fields| && t.fields[k] == inst[i];
    }
    PlainFieldsAddTheirSizeof(env, obj, inst);
  }

  function BoolType(): TypeDesc { TypeDesc("bool", 1, [], []) }

  lemma BoolIsPlain()
    ensures !IsSpecial(BoolType())
  {
    assert BoolType().name[0] == 'b';
    SpecialNames(BoolType());
  }

  /** A class holding an `int` and a `bool`, laid out in 8 bytes. It carries one of
      the simple-class names, since only those reach this handler; the layout is
      made up, and the handler never reads the name. */
  function PaddedPair(): TypeDesc
  {
    TypeDesc("CMasternodeIndex", 8, [],
      [Field("nIndex", UsedSizeFacts.IntType(), true, false), Field("fReady", BoolType(), true, false)])
  }

  /** Padding is not counted: the used size of a class whose fields are all flat
      is the sum of the fields' sizes, not the class's own `sizeof`. */
  lemma PaddingIsNotCounted(env: map<string, TypeDesc>, obj: Ref)
    ensures ClassSize(Calculator(env), obj, PaddedPair()) == Size(5)
    ensures ClassSize(Calculator(env), obj, PaddedPair()) != Size(PaddedPair().sizeof)
  {
    var t := PaddedPair();
    UsedSizeFacts.IntIsPlain();
    BoolIsPlain();
    PlainClassSize(env, obj, t);
    assert InstanceFields(t.fields) == t.fields by {
      assert t.fields[1..][1..] == [];
    }
  }

  /** A class with an `int`, a `std::vector<int>` and a `bool`, under a simple-class
      name; the layout is made up, and the handler never reads the name. */
  function WithVector(): TypeDesc
  {
    TypeDesc("CMasternodeMan", 32, [],
      [Field("a", UsedSizeFacts.IntType(), true, false), Field("v", UsedSizeFacts.VectorOfInt(), true, false),
       Field("b", BoolType(), true, false)])
  }

  function WithVectorObject(): Ref
  {
    Resolved(RecordV([
      Member("a", UsedSizeFacts.IntType(), Raw),
      Member("v", UsedSizeFacts.VectorOfInt(), VectorV([Raw, Raw, Raw])),
      Member("b", BoolType(), Raw)]))
  }

  /** A special field is sized by its handler: with three elements in the vector the
      class uses 4 + (24 + 3 * 4) + 1 = 41 bytes, against a `sizeof` of 32. */
  lemma VectorFieldIsFollowed(env: map<string, TypeDesc>)
    ensures ClassSize(Calculator(env), WithVectorObject(), WithVector()) == Size(41)
  {
    WithVectorFieldsAreInstanceFields();
    ExampleTerms(env);
    SumOfThree(FieldTerms(Calculator(env), WithVectorObject()), WithVector().fields);
  }

  lemma WithVectorFieldsAreInstanceFields()
    ensures InstanceFields(WithVector().fields) == WithVector().fields
  {
    var fs := WithVector().fields;
    assert fs[1..][1..][1..] == [];
  }

  lemma ExampleTerms(env: map<string, TypeDesc>)
    ensures FieldTerm(Calculator(env), WithVectorObject(), WithVector().fields[0]) == Size(4)
    ensures FieldTerm(Calculator(env), WithVectorObject(), WithVector().fields[1]) == Size(36)
    ensures FieldTerm(Calculator(env), WithVectorObject(), WithVector().fields[2]) == Size(1)
  {
    var obj := WithVectorObject();
    UsedSizeFacts.IntIsPlain();
    BoolIsPlain();
    UsedSizeFacts.NonSpecialIsSizeof(env, Dot(obj, "a"), UsedSizeFacts.IntType());
    UsedSizeFacts.NonSpecialIsSizeof(env, Dot(obj, "b"), BoolType());
    assert FindMember(obj.v, "v") == Some(1);
    ExampleVector(env);
  }

  lemma ExampleVector(env: map<string, TypeDesc>)
    ensures UsedSize.GetInstanceSize(env, Resolved(VectorV([Raw, Raw, Raw])), UsedSizeFacts.VectorOfInt()) == Size(36)
  {
    UsedSizeFacts.VectorOfIntIsVector();
    UsedSizeFacts.VectorOfPlainElements(env, [Raw, Raw, Raw], UsedSizeFacts.VectorOfInt(), UsedSizeFacts.IntType());
  }

  /** The three masternode records are simple classes as well, though the used-size
      calculator gives them their own handlers; no container is a simple class. */
  lemma RecordShapesAreSimpleClasses(t: TypeDesc)
    ensures IsRecordShape(Classify(t)) ==> IsThisType(t)
    ensures IsThisType(t) ==> Classify(t) == Plain || IsRecordShape(Classify(t))
  {
    if IsThisType(t) && IsSpecial(t) {
      FirstChar(t.name, Classify(t));
    }
  }
}
