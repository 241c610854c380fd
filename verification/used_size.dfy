/** The used-size calculator of used_size.py: `get_instance_size` and the seven
  handlers it dispatches to.

  Every function below computes the used size of the object `v` viewed at the
  type `t`, the way the matching handler's `get_used_size` does, with the
  handlers' constants. The type lookups come from the debug information `env`.

  Handlers name the memory they read by gdb expressions. A member or element
  path expression (`v._M_impl._M_start + i`, `obj.lastPing`) reaches the member
  it names and is modelled by the member's value. The map and list loops instead
  build cast expressions without outer parentheses, `*(T*)$value` and
  `*(L*)($current + 1)`; gdb binds a member path appended to them to `$value` or
  `($current + 1)` rather than to the cast, so such an object can only be
  printed as a whole. `CastSize` is what a handler yields on that footing.
 */
module UsedSize {
  import opened Outcomes
  import opened Inspect
  import opened Classifier

  const SizeOfInt: nat := 8
  const SizeOfBool: nat := 1

  /** The same object is re-read at another type only on the way from
      `CMasternodeBroadcast` to `CMasternode` and on to `masternode_info_t`. */
  function Level(t: TypeDesc): nat
  {
    if t.name == "CMasternodeBroadcast" then 2 else if t.name == "CMasternode" then 1 else 0
  }

  /** `get_instance_size` of an expression that resolves to no memory: a type no
      handler accepts is answered by its `sizeof` without reading anything; every
      handler evaluates the expression and raises. */
  function UnresolvedSize(t: TypeDesc): SizeResult
  {
    if IsSpecial(t) then Failed(Unreadable) else Size(t.sizeof)
  }

  /** `get_instance_size(obj, t)` for an object expression `obj`. */
  function GetInstanceSize(env: map<string, TypeDesc>, obj: Ref, t: TypeDesc): SizeResult
  {
    match obj
    case Unresolved => UnresolvedSize(t)
    case Resolved(v) => InstanceSize(env, v, t)
  }

  /** `get_instance_size` of a cast expression `*(T*)e` of type `t`. A flat type is
      its `sizeof`. A pair of two flat members prints the whole expression and adds
      the two `sizeof`s. Every other handler appends a member path, which gdb
      applies to `e` itself, where no such member exists, and raises. */
  function CastSize(t: TypeDesc): SizeResult
  {
    if !IsSpecial(t) then Size(t.sizeof)
    else match (Classify(t), TemplateArg(t, 0), TemplateArg(t, 1))
      case (PairShape, Some(kt), Some(vt)) =>
        if !IsSpecial(kt) && !IsSpecial(vt) then Size(kt.sizeof + vt.sizeof) else Failed(Unreadable)
      case _ => Failed(Unreadable)
  }

  /** What one pass of the list loop adds: the element type is asked for on every
      pass, and a special element is sized through `*(L*)($current + 1)`. */
  function ListElementSize(t: TypeDesc): SizeResult
  {
    match TemplateArg(t, 0)
    case None => Failed(Unreadable)
    case Some(et) => CastSize(et)
  }

  /** The loop of `ListObj.get_used_size` with room for at most `fuel` passes: the
      size once `$current` is the sentinel `head`, the fault of a pass that raises,
      and `None` when the passes run out first. No pass assigns `$current`. */
  function ListLoop(current: nat, head: nat, size: nat, part: SizeResult, fuel: nat): Option<SizeResult>
    decreases fuel
  {
    if current == head then Some(Size(size))
    else if fuel == 0 then None
    else match part
      case Failed(f) => Some(Failed(f))
      case Size(b) => ListLoop(current, head, size + b, part, fuel - 1)
  }

  /** `ListObj.get_used_size`. The total starts at `sizeof` and the loop starts at
      the sentinel's successor. A loop that does not stop for any number of passes
      is `NoProgress`. */
  function ListSize(v: Value, t: TypeDesc): SizeResult
  {
    if !v.ListV? || v.head !in v.next then Failed(Unreadable)
    else if v.next[v.head] == v.head then Size(t.sizeof)
    else match ListElementSize(t)
      case Failed(f) => Failed(f)
      case Size(_) => Failed(NoProgress)
  }

  /** `get_instance_size` of memory that resolved: `sizeof` when no handler accepts
      the type, otherwise the handler's used size. */
  function InstanceSize(env: map<string, TypeDesc>, v: Value, t: TypeDesc): SizeResult
    decreases v, Level(t), 3
  {
    match Classify(t)
    case Plain => Size(t.sizeof)
    case VectorShape => VectorSize(env, v, t)
    case ListShape => ListSize(v, t)
    case PairShape => PairSize(env, v, t)
    case MapShape => MapSize(env, v, t)
    case MasternodeShape => MasternodeSize(env, v, t)
    case VerificationShape => VerificationSize(env, v, t)
    case BroadcastShape => BroadcastSize(env, v, t)
  }

  /** `VectorObj.get_used_size`: the control block plus either the flat size of the
      `_M_finish - _M_start` elements or the used size of each of them. */
  function VectorSize(env: map<string, TypeDesc>, v: Value, t: TypeDesc): SizeResult
    decreases v, 0, 2
  {
    match TemplateArg(t, 0)
    case None => Failed(Unreadable)
    case Some(et) =>
      if !v.VectorV? then Failed(Unreadable)
      else if IsSpecial(et) then Plus(Size(t.sizeof), ElementsSize(env, v, et, 0))
      else Size(t.sizeof + |v.elems| * et.sizeof)
  }

  /** The used sizes of the elements from position `i` on, in order. */
  function ElementsSize(env: map<string, TypeDesc>, v: Value, et: TypeDesc, i: nat): SizeResult
    requires v.VectorV? && i <= |v.elems|
    decreases v, 0, 1, |v.elems| - i
  {
    if i == |v.elems| then Size(0)
    else Plus(InstanceSize(env, v.elems[i], et), ElementsSize(env, v, et, i + 1))
  }

  /** What the key of a pair adds. */
  function KeyPart(env: map<string, TypeDesc>, kt: TypeDesc, key: Value): SizeResult
    decreases key, 4
  {
    if IsSpecial(kt) then InstanceSize(env, key, kt) else Size(kt.sizeof)
  }

  /** What the value of a pair adds. Asking for the value type
      raises when the type has no second template argument. A value no handler
      accepts adds the KEY type's `sizeof`, as both handlers are written. */
  function ValuePart(env: map<string, TypeDesc>, kt: TypeDesc, vArg: Option<TypeDesc>, val: Value): SizeResult
    decreases val, 4
  {
    match vArg
    case None => Failed(Unreadable)
    case Some(vt) => if IsSpecial(vt) then InstanceSize(env, val, vt) else Size(kt.sizeof)
  }

  /** `PairObj.get_used_size`: no control block; both members flat when neither is
      special, otherwise key part then value part. */
  function PairSize(env: map<string, TypeDesc>, v: Value, t: TypeDesc): SizeResult
    decreases v, 0, 2
  {
    match TemplateArg(t, 0)
    case None => Failed(Unreadable)
    case Some(kt) =>
      var vArg := TemplateArg(t, 1);
      if !IsSpecial(kt) && vArg.Some? && !IsSpecial(vArg.value) then Size(kt.sizeof + vArg.value.sizeof)
      else if !v.PairV? then Failed(Unreadable)
      else Plus(KeyPart(env, kt, v.first), ValuePart(env, kt, vArg, v.second))
  }

  /** `MapObj.get_used_size`: a closed form when neither key nor value is special,
      exactly the control block for an empty map, and otherwise the control block
      plus the key and value parts of every node in in-order. */
  function MapSize(env: map<string, TypeDesc>, v: Value, t: TypeDesc): SizeResult
    decreases v, 0, 2
  {
    match TemplateArg(t, 0)
    case None => Failed(Unreadable)
    case Some(kt) =>
      var vArg := TemplateArg(t, 1);
      if !IsSpecial(kt) && vArg.None? then Failed(Unreadable)
      else if !v.MapV? then Failed(Unreadable)
      else if !IsSpecial(kt) && vArg.Some? && !IsSpecial(vArg.value) then
        Size(t.sizeof + NodeCount(v.tree) * (kt.sizeof + vArg.value.sizeof))
      else if NodeCount(v.tree) == 0 then Size(t.sizeof)
      else Plus(Size(t.sizeof), TreeSize(kt, vArg, v.tree))
  }

  /** What the key of a map node adds, read through `*(K*)$value`. */
  function NodeKeyPart(kt: TypeDesc): SizeResult
  {
    CastSize(kt)
  }

  /** What the value of a map node adds, read through `*(V*)$value`. Asking for the
      value type raises when the type has no second template argument; a flat value
      adds the KEY type's `sizeof`, as the handler is written. */
  function NodeValuePart(kt: TypeDesc, vArg: Option<TypeDesc>): SizeResult
  {
    match vArg
    case None => Failed(Unreadable)
    case Some(vt) => if IsSpecial(vt) then CastSize(vt) else Size(kt.sizeof)
  }

  /** What one map node adds: its key part, then its value part. */
  function NodeSize(kt: TypeDesc, vArg: Option<TypeDesc>): SizeResult
  {
    Plus(NodeKeyPart(kt), NodeValuePart(kt, vArg))
  }

  /** The key and value parts of every node of `tree`, in in-order. */
  function TreeSize(kt: TypeDesc, vArg: Option<TypeDesc>, tree: Tree): SizeResult
    decreases tree
  {
    match tree
    case Leaf => Size(0)
    case Node(l, _, _, r) => Plus(TreeSize(kt, vArg, l), Plus(NodeSize(kt, vArg), TreeSize(kt, vArg, r)))
  }

  /** `get_instance_size(obj.name, t)`. */
  function SizeAt(env: map<string, TypeDesc>, v: Value, name: string, t: TypeDesc): SizeResult
    decreases v, 0, 1
  {
    match FindMember(v, name)
    case Some(i) => InstanceSize(env, v.members[i].val, t)
    case None => UnresolvedSize(t)
  }

  /** `VectorObj.from_name(obj.name).get_used_size()`: the member's own declared type
      is read, so the member must exist. */
  function VectorAt(env: map<string, TypeDesc>, v: Value, name: string): SizeResult
    decreases v, 0, 1
  {
    match FindMember(v, name)
    case Some(i) => VectorSize(env, v.members[i].val, v.members[i].ty)
    case None => Failed(Unreadable)
  }

  /** `MapObj.from_name(obj.name).get_used_size()`. */
  function MapAt(env: map<string, TypeDesc>, v: Value, name: string): SizeResult
    decreases v, 0, 1
  {
    match FindMember(v, name)
    case Some(i) => MapSize(env, v.members[i].val, v.members[i].ty)
    case None => Failed(Unreadable)
  }

  /** `CMasternodeObj.get_used_size`: the object read as `masternode_info_t`, its
      `lastPing`, its signature vector, four ints and two bools, and its map of
      governance votes. */
  function MasternodeSize(env: map<string, TypeDesc>, v: Value, t: TypeDesc): SizeResult
    decreases v, 1, 2
  {
    var info := Lookup(env, "masternode_info_t");
    var ping := Lookup(env, "CMasternodePing");
    if info.None? then Failed(Unreadable)
    else
      Plus(InstanceSize(env, v, info.value),
           if ping.None? then Failed(Unreadable)
           else
             Plus(SizeAt(env, v, "lastPing", ping.value),
                  Plus(VectorAt(env, v, "vchSig"),
                       Plus(Size(4 * SizeOfInt + 2 * SizeOfBool),
                            MapAt(env, v, "mapGovernanceObjectsVotedOn")))))
  }

  /** `CMasternodeVerificationObj.get_used_size`: two `CTxIn`s, a `CService`, two
      ints and two signature vectors. */
  function VerificationSize(env: map<string, TypeDesc>, v: Value, t: TypeDesc): SizeResult
    decreases v, 0, 2
  {
    var txIn := Lookup(env, "CTxIn");
    var service := Lookup(env, "CService");
    if txIn.None? then Failed(Unreadable)
    else
      Plus(SizeAt(env, v, "vin1", txIn.value),
           Plus(SizeAt(env, v, "vin2", txIn.value),
                if service.None? then Failed(Unreadable)
                else
                  Plus(SizeAt(env, v, "addr", service.value),
                       Plus(Size(2 * SizeOfInt),
                            Plus(VectorAt(env, v, "vchSig1"), VectorAt(env, v, "vchSig2"))))))
  }

  /** `CMasternodeBroadcastObj.get_used_size`: the object read as `CMasternode`, plus
      one bool. */
  function BroadcastSize(env: map<string, TypeDesc>, v: Value, t: TypeDesc): SizeResult
    decreases v, 2, 2
  {
    match Lookup(env, "CMasternode")
    case None => Failed(Unreadable)
    case Some(mn) => Plus(InstanceSize(env, v, mn), Size(SizeOfBool))
  }

  /** `NodeSize` as the term of a sum over the entries of a map. */
  function EntryTerms(kt: TypeDesc, vArg: Option<TypeDesc>): Entry -> SizeResult
  {
    _ => NodeSize(kt, vArg)
  }

  /** `VectorObj.from_name("(" + obj + ").name").get_used_size()` for an object
      expression, as the private-send handlers call it. */
  function VectorOf(env: map<string, TypeDesc>, obj: Ref, name: string): SizeResult
  {
    match obj
    case Unresolved => Failed(Unreadable)
    case Resolved(v) => VectorAt(env, v, name)
  }
}
