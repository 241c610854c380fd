/** The two private-send record handlers of privatesend.py.

  `CDarksendQueue` and `CDarkSendEntry` are each recognised by their exact name and
  sized by a fixed formula over some of their members. The formulas call
  `common_helpers.get_instance_size`, `stl_containers.VectorObj` and the
  `SIZE_OF_*` constants of common_helpers; neither module is part of this model,
  so they come in as `Helpers`. Types are looked up in the debug information as
  the used-size calculator does.
 */
module PrivateSend {
  import opened Outcomes
  import opened Inspect
  import opened Classifier
  import SimpleClass
  import UsedSize
  import UsedSizeFacts

  /** What the handlers take from common_helpers and stl_containers: the used size
      of an expression at a type, the used size of a vector member of an object,
      and the sizes of `int`, `int64_t` and `bool`. */
  datatype Helpers = Helpers(
    sizer: (Ref, TypeDesc) -> SizeResult,
    vectorOf: (Ref, string) -> SizeResult,
    sizeOfInt: nat,
    sizeOfInt64: nat,
    sizeOfBool: nat)

  /** `CDarksendQueueObj.is_this_type`. */
  predicate IsQueue(t: TypeDesc)
  {
    t.name == "CDarksendQueue"
  }

  /** `CDarkSendEntryObj.is_this_type`. */
  predicate IsEntry(t: TypeDesc)
  {
    t.name == "CDarkSendEntry"
  }

  /** The literal bytes of a queue: its `int`, its `int64_t` and its two `bool`s. */
  function QueueOverhead(h: Helpers): nat
  {
    h.sizeOfInt + h.sizeOfInt64 + 2 * h.sizeOfBool
  }

  /** `CDarksendQueueObj.get_used_size`: an `int`, the member `vin` as a `CTxIn`, an
      `int64_t`, a `bool`, the vector `vchSig` and a `bool`, added left to right. */
  function QueueSize(h: Helpers, env: map<string, TypeDesc>, obj: Ref): SizeResult
  {
    match Lookup(env, "CTxIn")
    case None => Failed(Unreadable)
    case Some(txIn) =>
      Plus(Plus(Plus(Plus(Plus(Size(h.sizeOfInt), h.sizer(Dot(obj, "vin"), txIn)),
                          Size(h.sizeOfInt64)),
                     Size(h.sizeOfBool)),
                h.vectorOf(obj, "vchSig")),
           Size(h.sizeOfBool))
  }

  /** `CDarkSendEntryObj.get_used_size`: the vectors `vecTxDSIn` and `vecTxDSOut`, the
      member `txCollateral` as a `CTransaction` and the member `addr` as a
      `CService`, added left to right; each type is looked up just before its term. */
  function EntrySize(h: Helpers, env: map<string, TypeDesc>, obj: Ref): SizeResult
  {
    var ins := h.vectorOf(obj, "vecTxDSIn");
    var outs := h.vectorOf(obj, "vecTxDSOut");
    Plus(Plus(ins, outs),
         match Lookup(env, "CTransaction")
         case None => Failed(Unreadable)
         case Some(tx) =>
           Plus(h.sizer(Dot(obj, "txCollateral"), tx),
                match Lookup(env, "CService")
                case None => Failed(Unreadable)
                case Some(service) => h.sizer(Dot(obj, "addr"), service)))
  }

  /** The queue size succeeds exactly when `CTxIn` is known and its two sized members
      succeed, and is then the constant overhead plus those two members; so a queue
      uses at least its overhead, whatever the object. */
  lemma QueueFormula(h: Helpers, env: map<string, TypeDesc>, obj: Ref)
    ensures QueueSize(h, env, obj).Size? <==>
            && Lookup(env, "CTxIn").Some?
            && h.sizer(Dot(obj, "vin"), Lookup(env, "CTxIn").value).Size?
            && h.vectorOf(obj, "vchSig").Size?
    ensures QueueSize(h, env, obj).Size? ==>
            QueueSize(h, env, obj).bytes
            == QueueOverhead(h) + h.sizer(Dot(obj, "vin"), Lookup(env, "CTxIn").value).bytes
               + h.vectorOf(obj, "vchSig").bytes
  {
  }

  /** The entry size succeeds exactly when its four terms do, and is then their sum. */
  lemma EntryFormula(h: Helpers, env: map<string, TypeDesc>, obj: Ref)
    ensures EntrySize(h, env, obj).Size? <==>
            && h.vectorOf(obj, "vecTxDSIn").Size?
            && h.vectorOf(obj, "vecTxDSOut").Size?
            && Lookup(env, "CTransaction").Some?
            && h.sizer(Dot(obj, "txCollateral"), Lookup(env, "CTransaction").value).Size?
            && Lookup(env, "CService").Some?
            && h.sizer(Dot(obj, "addr"), Lookup(env, "CService").value).Size?
    ensures EntrySize(h, env, obj).Size? ==>
            EntrySize(h, env, obj).bytes
            == h.vectorOf(obj, "vecTxDSIn").bytes + h.vectorOf(obj, "vecTxDSOut").bytes
               + h.sizer(Dot(obj, "txCollateral"), Lookup(env, "CTransaction").value).bytes
               + h.sizer(Dot(obj, "addr"), Lookup(env, "CService").value).bytes
  {
  }

  /** The first term that fails decides a failing entry: a vector that cannot be
      read hides a missing `CTransaction`. */
  lemma EntryFailsAtFirstFault(h: Helpers, env: map<string, TypeDesc>, obj: Ref)
    requires h.vectorOf(obj, "vecTxDSIn").Failed?
    ensures EntrySize(h, env, obj) == h.vectorOf(obj, "vecTxDSIn")
  {
  }

  /** Each handler accepts exactly one name, the two names differ in the case of one
      letter, both are simple classes, and the used-size calculator has no handler
      for either. */
  lemma RecognisersAreExact(t: TypeDesc)
    ensures !(IsQueue(t) && IsEntry(t))
    ensures IsQueue(t) || IsEntry(t) ==> SimpleClass.IsThisType(t) && !IsSpecial(t)
  {
    if IsQueue(t) || IsEntry(t) {
      assert t.name[0] == 'C';
      SpecialNames(t);
      assert t.name in SimpleClass.SimpleTypes;
    }
  }

  /** The handlers wired to the used-size calculator. */
  function CalculatorHelpers(env: map<string, TypeDesc>, sizeOfInt64: nat): Helpers
  {
    Helpers((o, ft) => UsedSize.GetInstanceSize(env, o, ft),
            (o, name) => UsedSize.VectorOf(env, o, name),
            UsedSize.SizeOfInt, sizeOfInt64, UsedSize.SizeOfBool)
  }

  /** With the calculator's helpers, a queue's `vin` adds the `sizeof` of `CTxIn` and the
      queue uses 8 + sizeof(CTxIn) + int64 + 1 + vchSig + 1 bytes. */
  lemma QueueWithCalculator(env: map<string, TypeDesc>, sizeOfInt64: nat, obj: Ref)
    requires "CTxIn" in env && env["CTxIn"].name == "CTxIn"
    ensures var r := QueueSize(CalculatorHelpers(env, sizeOfInt64), env, obj);
            var sig := UsedSize.VectorOf(env, obj, "vchSig");
            && (r.Size? <==> sig.Size?)
            && (r.Size? ==> r.bytes == 8 + env["CTxIn"].sizeof + sizeOfInt64 + 1 + sig.bytes + 1)
  {
    var h := CalculatorHelpers(env, sizeOfInt64);
    var txIn := env["CTxIn"];
    UsedSizeFacts.LookedUpTypesArePlain(txIn);
    UsedSizeFacts.NonSpecialIsSizeof(env, Dot(obj, "vin"), txIn);
    assert h.sizer(Dot(obj, "vin"), txIn) == Size(txIn.sizeof);
    assert h.vectorOf(obj, "vchSig") == UsedSize.VectorOf(env, obj, "vchSig");
    QueueFormula(h, env, obj);
  }

  /** With the calculator's helpers, an entry's collateral and address add the
      `sizeof` of `CTransaction` and `CService`. */
  lemma EntryWithCalculator(env: map<string, TypeDesc>, sizeOfInt64: nat, obj: Ref)
    requires "CTransaction" in env && env["CTransaction"].name == "CTransaction"
    requires "CService" in env && env["CService"].name == "CService"
    ensures var r := EntrySize(CalculatorHelpers(env, sizeOfInt64), env, obj);
            var ins := UsedSize.VectorOf(env, obj, "vecTxDSIn");
            var outs := UsedSize.VectorOf(env, obj, "vecTxDSOut");
            && (r.Size? <==> ins.Size? && outs.Size?)
            && (r.Size? ==> r.bytes == ins.bytes + outs.bytes + env["CTransaction"].sizeof + env["CService"].sizeof)
  {
    var h := CalculatorHelpers(env, sizeOfInt64);
    var tx := env["CTransaction"];
    var service := env["CService"];
    UsedSizeFacts.LookedUpTypesArePlain(tx);
    UsedSizeFacts.LookedUpTypesArePlain(service);
    UsedSizeFacts.NonSpecialIsSizeof(env, Dot(obj, "txCollateral"), tx);
    UsedSizeFacts.NonSpecialIsSizeof(env, Dot(obj, "addr"), service);
    assert h.sizer(Dot(obj, "txCollateral"), tx) == Size(tx.sizeof);
    assert h.sizer(Dot(obj, "addr"), service) == Size(service.sizeof);
    assert h.vectorOf(obj, "vecTxDSIn") == UsedSize.VectorOf(env, obj, "vecTxDSIn");
    assert h.vectorOf(obj, "vecTxDSOut") == UsedSize.VectorOf(env, obj, "vecTxDSOut");
    EntryFormula(h, env, obj);
  }
}
