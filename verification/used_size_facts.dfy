/** What the used-size calculator of used_size.py computes, shape by shape: the
    closed forms of the fast paths, the exact results for empty containers, the
    per-element and per-node sums of the recursive paths, and the fixed formulas
    of the three masternode records. */
module UsedSizeFacts {
  import opened Outcomes
  import opened Inspect
  import opened Classifier
  import opened UsedSize

  /** A type no handler accepts has used size `sizeof`, whatever the object is and
      whether or not it can be read. */
  lemma NonSpecialIsSizeof(env: map<string, TypeDesc>, obj: Ref, t: TypeDesc)
    requires !IsSpecial(t)
    ensures GetInstanceSize(env, obj, t) == Size(t.sizeof)
  {
  }

  /** A special type on an expression that resolves to nothing makes the handler raise. */
  lemma UnresolvedSpecialFails(env: map<string, TypeDesc>, t: TypeDesc)
    requires IsSpecial(t)
    ensures GetInstanceSize(env, Unresolved, t) == Failed(Unreadable)
  {
  }

  /** The types the record handlers look up by name are none of the special ones. */
  lemma LookedUpTypesArePlain(t: TypeDesc)
    requires t.name in {"masternode_info_t", "CMasternodePing", "CTxIn", "CService", "CTransaction"}
    ensures !IsSpecial(t)
  {
    SpecialNames(t);
  }

  /** `get_instance_size(obj.name, t)` of a flat type is its `sizeof`, whether or not
      the member exists. */
  lemma SizeAtPlain(env: map<string, TypeDesc>, v: Value, name: string, t: TypeDesc)
    requires !IsSpecial(t)
    ensures SizeAt(env, v, name, t) == Size(t.sizeof)
  {
  }

  // ----- vector -----

  /** Flat elements: the control block plus `_M_finish - _M_start` times the
      element's `sizeof`. */
  lemma VectorOfPlainElements(env: map<string, TypeDesc>, es: seq<Value>, t: TypeDesc, et: TypeDesc)
    requires Classify(t) == VectorShape && TemplateArg(t, 0) == Some(et) && !IsSpecial(et)
    ensures InstanceSize(env, VectorV(es), t) == Size(t.sizeof + |es| * et.sizeof)
  {
  }

  lemma {:induction false} ElementsSizeIsSum(env: map<string, TypeDesc>, v: Value, et: TypeDesc, i: nat)
    requires v.VectorV? && i <= |v.elems|
    ensures ElementsSize(env, v, et, i) == SumOf(x => InstanceSize(env, x, et), v.elems[i..])
    decreases |v.elems| - i
  {
    if i < |v.elems| {
      ElementsSizeIsSum(env, v, et, i + 1);
      assert v.elems[i..][0] == v.elems[i];
      assert v.elems[i..][1..] == v.elems[i + 1..];
    }
  }

  /** Special elements: the control block plus the used size of each element, in
      order; the result is a size exactly when every element's is. */
  lemma VectorOfSpecialElements(env: map<string, TypeDesc>, es: seq<Value>, t: TypeDesc, et: TypeDesc)
    requires Classify(t) == VectorShape && TemplateArg(t, 0) == Some(et) && IsSpecial(et)
    ensures InstanceSize(env, VectorV(es), t) == Plus(Size(t.sizeof), SumOf(x => InstanceSize(env, x, et), es))
    ensures InstanceSize(env, VectorV(es), t).Size? <==> forall i :: 0 <= i < |es| ==> InstanceSize(env, es[i], et).Size?
    ensures InstanceSize(env, VectorV(es), t).Size? ==>
              InstanceSize(env, VectorV(es), t).bytes == t.sizeof + Bytes(x => InstanceSize(env, x, et), es)
  {
    ElementsSizeIsSum(env, VectorV(es), et, 0);
    assert es[0..] == es;
    SumOfCharacterized(x => InstanceSize(env, x, et), es);
  }

  /** An empty vector is exactly its control block, whatever its element type. */
  lemma EmptyVector(env: map<string, TypeDesc>, t: TypeDesc)
    requires Classify(t) == VectorShape && |t.args| > 0
    ensures InstanceSize(env, VectorV([]), t) == Size(t.sizeof)
  {
  }

  /** Two levels of nesting: a vector of pairs of flat members is the control
      block plus, per element, the two members' `sizeof`. */
  lemma VectorOfPlainPairs(env: map<string, TypeDesc>, es: seq<Value>, t: TypeDesc, pt: TypeDesc, kt: TypeDesc, vt: TypeDesc)
    requires Classify(t) == VectorShape && TemplateArg(t, 0) == Some(pt)
    requires Classify(pt) == PairShape && TemplateArg(pt, 0) == Some(kt) && TemplateArg(pt, 1) == Some(vt)
    requires !IsSpecial(kt) && !IsSpecial(vt)
    ensures InstanceSize(env, VectorV(es), t) == Size(t.sizeof + |es| * (kt.sizeof + vt.sizeof))
  {
    VectorOfSpecialElements(env, es, t, pt);
    SumOfConstant(x => InstanceSize(env, x, pt), es, kt.sizeof + vt.sizeof);
  }

  // ----- list -----

  /** A list whose sentinel points to itself is exactly its control block. */
  lemma EmptyList(env: map<string, TypeDesc>, head: nat, next: map<nat, nat>, t: TypeDesc)
    requires Classify(t) == ListShape && head in next && next[head] == head
    ensures InstanceSize(env, ListV(head, next), t) == Size(t.sizeof)
  {
  }

  /** Once a pass adds bytes without raising, the loop runs out of passes, however
      many it is given: `$current` stays where it started. */
  lemma {:induction false} ListLoopStalls(current: nat, head: nat, size: nat, part: SizeResult, fuel: nat)
    requires current != head && part.Size?
    ensures ListLoop(current, head, size, part, fuel).None?
    decreases fuel
  {
    if fuel > 0 {
      ListLoopStalls(current, head, size + part.bytes, part, fuel - 1);
    }
  }

  /** The list handler is its loop started at the sentinel's successor with the
      control block as the total: `NoProgress` exactly when the loop stops for no
      number of passes, and otherwise what the loop yields after one pass. */
  lemma ListSizeIsTheLoop(v: Value, t: TypeDesc, fuel: nat)
    requires v.ListV? && v.head in v.next
    ensures ListSize(v, t) == Failed(NoProgress) ==>
              ListLoop(v.next[v.head], v.head, t.sizeof, ListElementSize(t), fuel).None?
    ensures ListSize(v, t) != Failed(NoProgress) && fuel > 0 ==>
              ListLoop(v.next[v.head], v.head, t.sizeof, ListElementSize(t), fuel) == Some(ListSize(v, t))
  {
    if ListSize(v, t) == Failed(NoProgress) {
      ListLoopStalls(v.next[v.head], v.head, t.sizeof, ListElementSize(t), fuel);
    }
  }

  /** A list with a node whose element pass does not raise never yields a size. */
  lemma NonEmptyListNeverFinishes(env: map<string, TypeDesc>, head: nat, next: map<nat, nat>, t: TypeDesc)
    requires Classify(t) == ListShape && head in next && next[head] != head
    requires ListElementSize(t).Size?
    ensures InstanceSize(env, ListV(head, next), t) == Failed(NoProgress)
  {
  }

  /** A list with a node of special elements other than pairs raises on its first
      pass, at the member path appended to `($current + 1)`. */
  lemma ListOfSpecialElementsRaises(env: map<string, TypeDesc>, head: nat, next: map<nat, nat>, t: TypeDesc, et: TypeDesc)
    requires Classify(t) == ListShape && head in next && next[head] != head
    requires TemplateArg(t, 0) == Some(et) && IsSpecial(et) && Classify(et) != PairShape
    ensures InstanceSize(env, ListV(head, next), t) == Failed(Unreadable)
  {
  }

  // ----- cast expressions -----

  /** Where a cast expression yields a size, it is the size the handler gives on
      any object of that type: the object is never looked into. */
  lemma CastSizeAgreesWithHandler(env: map<string, TypeDesc>, v: Value, t: TypeDesc)
    requires CastSize(t).Size?
    ensures InstanceSize(env, v, t) == CastSize(t)
  {
    if IsSpecial(t) {
      assert InstanceSize(env, v, t) == PairSize(env, v, t);
    }
  }

  // ----- pair -----

  /** Two flat members: the sum of their `sizeof`, without reading the object. */
  lemma PairOfPlainMembers(env: map<string, TypeDesc>, v: Value, t: TypeDesc, kt: TypeDesc, vt: TypeDesc)
    requires Classify(t) == PairShape && TemplateArg(t, 0) == Some(kt) && TemplateArg(t, 1) == Some(vt)
    requires !IsSpecial(kt) && !IsSpecial(vt)
    ensures GetInstanceSize(env, Resolved(v), t) == Size(kt.sizeof + vt.sizeof)
    ensures GetInstanceSize(env, Unresolved, t) == Failed(Unreadable)
  {
    assert InstanceSize(env, v, t) == PairSize(env, v, t);
  }

  /** A special member: each special member adds its used size, a flat key adds its
      `sizeof`, and a flat value adds the KEY's `sizeof`. */
  lemma PairWithSpecialMember(env: map<string, TypeDesc>, a: Value, b: Value, t: TypeDesc, kt: TypeDesc, vt: TypeDesc)
    requires Classify(t) == PairShape && TemplateArg(t, 0) == Some(kt) && TemplateArg(t, 1) == Some(vt)
    requires IsSpecial(kt) || IsSpecial(vt)
    ensures var first := if IsSpecial(kt) then InstanceSize(env, a, kt) else Size(kt.sizeof);
            var second := if IsSpecial(vt) then InstanceSize(env, b, vt) else Size(kt.sizeof);
            InstanceSize(env, PairV(a, b), t) == Plus(first, second)
  {
    assert InstanceSize(env, PairV(a, b), t) == PairSize(env, PairV(a, b), t);
    assert KeyPart(env, kt, a) == (if IsSpecial(kt) then InstanceSize(env, a, kt) else Size(kt.sizeof));
    assert ValuePart(env, kt, Some(vt), b) == (if IsSpecial(vt) then InstanceSize(env, b, vt) else Size(kt.sizeof));
  }

  /** The value branch adds the key's `sizeof` where the value's is meant: with a
      special key of used size `s` and a flat value, the pair is `s + kt.sizeof`,
      which misses `s + vt.sizeof` whenever the two `sizeof`s differ. */
  lemma PairFlatValueCountsKeySize(env: map<string, TypeDesc>, a: Value, b: Value, t: TypeDesc, kt: TypeDesc, vt: TypeDesc, s: nat)
    requires Classify(t) == PairShape && TemplateArg(t, 0) == Some(kt) && TemplateArg(t, 1) == Some(vt)
    requires IsSpecial(kt) && !IsSpecial(vt) && InstanceSize(env, a, kt) == Size(s)
    ensures InstanceSize(env, PairV(a, b), t) == Size(s + kt.sizeof)
    ensures kt.sizeof != vt.sizeof ==> InstanceSize(env, PairV(a, b), t) != Size(s + vt.sizeof)
  {
    PairWithSpecialMember(env, a, b, t, kt, vt);
  }

  /** A concrete pair `std::pair<std::vector<int>, char>` holding an empty vector:
      24 bytes of vector control block and a 1-byte char come out as 48. */
  lemma PairDefectWitness()
    ensures InstanceSize(map[], PairV(VectorV([]), Raw), PairOfVectorAndChar()) == Size(48)
  {
    var pairT := PairOfVectorAndChar();
    var vecT := pairT.args[0];
    var charT := pairT.args[1];
    PairOfVectorAndCharIsPair();
    VectorOfIntIsVector();
    CharIsPlain();
    EmptyVector(map[], vecT);
    PairFlatValueCountsKeySize(map[], VectorV([]), Raw, pairT, vecT, charT, 24);
  }

  function IntType(): TypeDesc { TypeDesc("int", 4, [], []) }
  function CharType(): TypeDesc { TypeDesc("char", 1, [], []) }
  function VectorOfInt(): TypeDesc { TypeDesc("std::vector<int>", 24, [IntType()], []) }

  function PairOfVectorAndChar(): TypeDesc
  {
    TypeDesc("std::pair<std::vector<int>, char>", 32, [VectorOfInt(), CharType()], [])
  }

  lemma IntIsPlain()
    ensures !IsSpecial(IntType())
  {
    assert IntType().name[0] == 'i';
    SpecialNames(IntType());
  }

  lemma CharIsPlain()
    ensures !IsSpecial(CharType())
  {
    assert CharType().name[0] == 'c';
    SpecialNames(CharType());
  }

  /** `std::vector<int>` is a vector of flat elements. */
  lemma VectorOfIntIsVector()
    ensures Classify(VectorOfInt()) == VectorShape
    ensures TemplateArg(VectorOfInt(), 0) == Some(IntType()) && !IsSpecial(IntType())
  {
    assert VectorOfInt().name[..12] == "std::vector<";
    ClassifyIsTheMatchingShape(VectorOfInt(), VectorShape);
    IntIsPlain();
  }

  lemma PairOfVectorAndCharIsPair()
    ensures Classify(PairOfVectorAndChar()) == PairShape
  {
    assert PairOfVectorAndChar().name[..10] == "std::pair<";
    ClassifyIsTheMatchingShape(PairOfVectorAndChar(), PairShape);
  }

  // ----- map -----

  /** Flat key and value: the control block plus `_M_node_count` times the two
      `sizeof`s; no node is visited. */
  lemma MapOfPlainEntries(env: map<string, TypeDesc>, tree: Tree, t: TypeDesc, kt: TypeDesc, vt: TypeDesc)
    requires Classify(t) == MapShape && TemplateArg(t, 0) == Some(kt) && TemplateArg(t, 1) == Some(vt)
    requires !IsSpecial(kt) && !IsSpecial(vt)
    ensures InstanceSize(env, MapV(tree), t) == Size(t.sizeof + NodeCount(tree) * (kt.sizeof + vt.sizeof))
  {
  }

  /** The parts of a map's types that make it take the walking path. */
  predicate WalksNodes(t: TypeDesc)
  {
    |t.args| > 0 && (IsSpecial(t.args[0]) || (|t.args| > 1 && IsSpecial(t.args[1])))
  }

  /** An empty map on the walking path is exactly its control block. */
  lemma EmptyMapWithSpecialPart(env: map<string, TypeDesc>, tree: Tree, t: TypeDesc)
    requires Classify(t) == MapShape && WalksNodes(t) && NodeCount(tree) == 0
    ensures InstanceSize(env, MapV(tree), t) == Size(t.sizeof)
  {
  }

  lemma {:induction false} TreeSizeIsInOrderSum(kt: TypeDesc, vArg: Option<TypeDesc>, tree: Tree)
    ensures TreeSize(kt, vArg, tree) == SumOf(EntryTerms(kt, vArg), InOrder(tree))
  {
    match tree
    case Leaf =>
    case Node(l, k, x, r) =>
      var f := EntryTerms(kt, vArg);
      TreeSizeIsInOrderSum(kt, vArg, l);
      TreeSizeIsInOrderSum(kt, vArg, r);
      SumOfConcat(f, InOrder(l) + [Entry(k, x)], InOrder(r));
      SumOfConcat(f, InOrder(l), [Entry(k, x)]);
      assert [Entry(k, x)][1..] == [];
      PlusAssociative(SumOf(f, InOrder(l)), f(Entry(k, x)), SumOf(f, InOrder(r)));
  }

  /** The walking path: the control block plus, for every node in in-order, its key
      part then its value part; each node counted once. */
  lemma MapWalkSumsInOrderEntries(env: map<string, TypeDesc>, tree: Tree, t: TypeDesc)
    requires Classify(t) == MapShape && WalksNodes(t) && NodeCount(tree) > 0
    ensures InstanceSize(env, MapV(tree), t)
            == Plus(Size(t.sizeof), SumOf(EntryTerms(t.args[0], TemplateArg(t, 1)), InOrder(tree)))
  {
    TreeSizeIsInOrderSum(t.args[0], TemplateArg(t, 1), tree);
  }

  /** Every node adds the same part, so the nodes of a tree add node count copies
      of that part. */
  lemma TreeSizeClosedForm(kt: TypeDesc, vArg: Option<TypeDesc>, tree: Tree)
    ensures TreeSize(kt, vArg, tree) == Times(NodeCount(tree), NodeSize(kt, vArg))
  {
    TreeSizeIsInOrderSum(kt, vArg, tree);
    SumOfSame(EntryTerms(kt, vArg), InOrder(tree), NodeSize(kt, vArg));
  }

  /** A map on the walking path is its control block plus node count copies of the
      part one node adds: node count times its bytes, or its fault. */
  lemma MapWalkClosedForm(env: map<string, TypeDesc>, tree: Tree, t: TypeDesc)
    requires Classify(t) == MapShape && WalksNodes(t)
    ensures InstanceSize(env, MapV(tree), t)
            == Plus(Size(t.sizeof), Times(NodeCount(tree), NodeSize(t.args[0], TemplateArg(t, 1))))
  {
    TreeSizeClosedForm(t.args[0], TemplateArg(t, 1), tree);
  }

  /** Two maps with as many nodes have the same used size, whatever their entries
      and however their trees are balanced. */
  lemma MapSizeDependsOnlyOnNodeCount(env: map<string, TypeDesc>, t1: Tree, t2: Tree, t: TypeDesc)
    requires Classify(t) == MapShape && NodeCount(t1) == NodeCount(t2)
    ensures InstanceSize(env, MapV(t1), t) == InstanceSize(env, MapV(t2), t)
  {
    if WalksNodes(t) {
      MapWalkClosedForm(env, t1, t);
      MapWalkClosedForm(env, t2, t);
    }
  }

  /** A node with a special key and a flat value adds the key's used size and then
      the key's `sizeof` again. */
  lemma MapFlatValueCountsKeySize(kt: TypeDesc, vt: TypeDesc, s: nat)
    requires IsSpecial(kt) && !IsSpecial(vt) && CastSize(kt) == Size(s)
    ensures NodeSize(kt, Some(vt)) == Size(s + kt.sizeof)
    ensures kt.sizeof != vt.sizeof ==> NodeSize(kt, Some(vt)) != Size(s + vt.sizeof)
  {
  }

  /** `std::map<int, std::vector<int>>` with one node raises: the vector handler
      appends `._M_impl._M_finish` to `*(std::vector<int>*)$value`, a member path
      gdb applies to the `void*` `$value`. */
  lemma MapOfIntToVectorFails(key: Value, val: Value)
    ensures InstanceSize(map[], MapV(Node(Leaf, key, val, Leaf)), MapOfIntToVector()) == Failed(Unreadable)
  {
    var t := MapOfIntToVector();
    MapOfIntToVectorIsMap();
    VectorOfIntIsVector();
    IntIsPlain();
    assert CastSize(VectorOfInt()) == Failed(Unreadable);
    MapWalkClosedForm(map[], Node(Leaf, key, val, Leaf), t);
  }

  function MapOfIntToVector(): TypeDesc
  {
    TypeDesc("std::map<int, std::vector<int>>", 48, [IntType(), VectorOfInt()], [])
  }

  lemma MapOfIntToVectorIsMap()
    ensures Classify(MapOfIntToVector()) == MapShape
  {
    assert MapOfIntToVector().name[..9] == "std::map<";
    ClassifyIsTheMatchingShape(MapOfIntToVector(), MapShape);
  }

  // ----- masternode records -----

  /** `CMasternode`: `sizeof(masternode_info_t) + sizeof(CMasternodePing)` plus the
      signature vector, `4 * 8 + 2 * 1` literal bytes and the vote map. */
  lemma MasternodeFormula(env: map<string, TypeDesc>, v: Value, t: TypeDesc, info: TypeDesc, ping: TypeDesc)
    requires t.name == "CMasternode"
    requires Lookup(env, "masternode_info_t") == Some(info) && Lookup(env, "CMasternodePing") == Some(ping)
    ensures var r := InstanceSize(env, v, t);
            var sig := VectorAt(env, v, "vchSig");
            var votes := MapAt(env, v, "mapGovernanceObjectsVotedOn");
            && (r.Size? <==> sig.Size? && votes.Size?)
            && (r.Size? ==> r.bytes == info.sizeof + ping.sizeof + sig.bytes + 4 * 8 + 2 * 1 + votes.bytes)
  {
    LookedUpTypesArePlain(info);
    LookedUpTypesArePlain(ping);
    SizeAtPlain(env, v, "lastPing", ping);
    ClassifyIsTheMatchingShape(t, MasternodeShape);
    var sig := VectorAt(env, v, "vchSig");
    var votes := MapAt(env, v, "mapGovernanceObjectsVotedOn");
    assert InstanceSize(env, v, info) == Size(info.sizeof);
    assert InstanceSize(env, v, t)
        == Plus(Size(info.sizeof), Plus(Size(ping.sizeof), Plus(sig, Plus(Size(4 * SizeOfInt + 2 * SizeOfBool), votes))));
  }

  /** `CMasternodeVerification`: two `CTxIn`s, one `CService`, `2 * 8` literal bytes
      and two signature vectors. */
  lemma VerificationFormula(env: map<string, TypeDesc>, v: Value, t: TypeDesc, txIn: TypeDesc, service: TypeDesc)
    requires t.name == "CMasternodeVerification"
    requires Lookup(env, "CTxIn") == Some(txIn) && Lookup(env, "CService") == Some(service)
    ensures var r := InstanceSize(env, v, t);
            var sig1 := VectorAt(env, v, "vchSig1");
            var sig2 := VectorAt(env, v, "vchSig2");
            && (r.Size? <==> sig1.Size? && sig2.Size?)
            && (r.Size? ==> r.bytes == 2 * txIn.sizeof + service.sizeof + 2 * 8 + sig1.bytes + sig2.bytes)
  {
    LookedUpTypesArePlain(txIn);
    LookedUpTypesArePlain(service);
    SizeAtPlain(env, v, "vin1", txIn);
    SizeAtPlain(env, v, "vin2", txIn);
    SizeAtPlain(env, v, "addr", service);
    ClassifyIsTheMatchingShape(t, VerificationShape);
    var sig1 := VectorAt(env, v, "vchSig1");
    var sig2 := VectorAt(env, v, "vchSig2");
    assert InstanceSize(env, v, t)
        == Plus(Size(txIn.sizeof), Plus(Size(txIn.sizeof), Plus(Size(service.sizeof), Plus(Size(2 * SizeOfInt), Plus(sig1, sig2)))));
  }

  /** `CMasternodeBroadcast`: the same object's `CMasternode` size plus one byte. */
  lemma BroadcastFormula(env: map<string, TypeDesc>, v: Value, t: TypeDesc, mn: TypeDesc)
    requires t.name == "CMasternodeBroadcast" && Lookup(env, "CMasternode") == Some(mn)
    ensures var r := InstanceSize(env, v, t);
            var m := InstanceSize(env, v, mn);
            && (r.Size? <==> m.Size?)
            && (r.Size? ==> r.bytes == m.bytes + 1)
  {
    ClassifyIsTheMatchingShape(t, BroadcastShape);
    assert InstanceSize(env, v, t) == BroadcastSize(env, v, t);
  }

  /** `CMasternodeObj.get_used_size` raises when either type it looks up,
      `masternode_info_t` or `CMasternodePing`, is missing from the debug
      information: the first term is flat, so the failed lookup decides the sum. */
  lemma MasternodeLookupMissingFails(env: map<string, TypeDesc>, v: Value, t: TypeDesc)
    requires t.name == "CMasternode"
    requires Lookup(env, "masternode_info_t").None? || Lookup(env, "CMasternodePing").None?
    ensures InstanceSize(env, v, t) == Failed(Unreadable)
  {
    ClassifyIsTheMatchingShape(t, MasternodeShape);
    var info := Lookup(env, "masternode_info_t");
    if info.Some? {
      LookedUpTypesArePlain(info.value);
      assert InstanceSize(env, v, info.value) == Size(info.value.sizeof);
    }
    assert InstanceSize(env, v, t) == MasternodeSize(env, v, t);
  }

  /** `CMasternodeVerificationObj.get_used_size` raises when `CTxIn` or `CService`
      is missing from the debug information. */
  lemma VerificationLookupMissingFails(env: map<string, TypeDesc>, v: Value, t: TypeDesc)
    requires t.name == "CMasternodeVerification"
    requires Lookup(env, "CTxIn").None? || Lookup(env, "CService").None?
    ensures InstanceSize(env, v, t) == Failed(Unreadable)
  {
    ClassifyIsTheMatchingShape(t, VerificationShape);
    var txIn := Lookup(env, "CTxIn");
    if txIn.Some? {
      LookedUpTypesArePlain(txIn.value);
      SizeAtPlain(env, v, "vin1", txIn.value);
      SizeAtPlain(env, v, "vin2", txIn.value);
    }
  }

  /** `CMasternodeBroadcastObj.get_used_size` raises when `CMasternode` is missing,
      and, through the masternode handler it re-reads the object with, when
      `masternode_info_t` or `CMasternodePing` is. */
  lemma BroadcastLookupMissingFails(env: map<string, TypeDesc>, v: Value, t: TypeDesc)
    requires t.name == "CMasternodeBroadcast"
    requires || Lookup(env, "CMasternode").None?
             || Lookup(env, "masternode_info_t").None?
             || Lookup(env, "CMasternodePing").None?
    ensures InstanceSize(env, v, t) == Failed(Unreadable)
  {
    ClassifyIsTheMatchingShape(t, BroadcastShape);
    var mn := Lookup(env, "CMasternode");
    if mn.Some? {
      MasternodeLookupMissingFails(env, v, mn.value);
    }
  }
}
