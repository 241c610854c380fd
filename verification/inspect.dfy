/** What gdb shows of the halted process.

  A type descriptor carries what the size calculator asks of a `gdb.Type`: its
  printed name, its `sizeof`, its template arguments and its fields. A runtime
  value is the memory behind an object, abstracted to the layouts the handlers
  walk. An object reference is an expression that either resolves to memory or
  does not; the calculator reads it only when a handler needs its contents.
 */
module Inspect {

  datatype Option<T> = None | Some(value: T)

  /** A field of a composite type. `hasBitpos` is false for static members, which
      gdb lists without a byte position; `isBaseClass` marks a base-class
      slot. */
  datatype Field = Field(name: string, ty: TypeDesc, hasBitpos: bool, isBaseClass: bool)

  datatype TypeDesc = TypeDesc(name: string, sizeof: nat, args: seq<TypeDesc>, fields: seq<Field>)

  /** Memory behind an object, seen through the layout its handler walks.
      - `VectorV`: the elements between `_M_start` and `_M_finish`;
      - `ListV`: the sentinel node `head` and the `_M_next` link of each node;
      - `PairV`: the members `first` and `second`;
      - `MapV`: the red-black tree behind `_M_t` (colours play no part);
      - `RecordV`: the members of a class object, with their declared types;
      - `Raw`: memory with none of these layouts. */
  datatype Value =
    | Raw
    | VectorV(elems: seq<Value>)
    | ListV(head: nat, next: map<nat, nat>)
    | PairV(first: Value, second: Value)
    | MapV(tree: Tree)
    | RecordV(members: seq<Member>)

  datatype Member = Member(name: string, ty: TypeDesc, val: Value)

  /** A binary search tree holding one key/value payload per node. */
  datatype Tree = Leaf | Node(left: Tree, key: Value, val: Value, right: Tree)

  /** One payload of a map, as the in-order walk meets it. */
  datatype Entry = Entry(key: Value, val: Value)

  /** An object expression handed to a handler. */
  datatype Ref = Resolved(v: Value) | Unresolved

  /** `_M_node_count`: the number of nodes of the tree. */
  function NodeCount(t: Tree): nat
  {
    match t
    case Leaf => 0
    case Node(l, _, _, r) => NodeCount(l) + 1 + NodeCount(r)
  }

  /** The payloads in ascending key order. */
  function InOrder(t: Tree): (es: seq<Entry>)
    ensures |es| == NodeCount(t)
  {
    match t
    case Leaf => []
    case Node(l, k, x, r) => InOrder(l) + [Entry(k, x)] + InOrder(r)
  }

  /** `obj_type.template_argument(i)`: raises when the type has no such argument. */
  function TemplateArg(t: TypeDesc, i: nat): (r: Option<TypeDesc>)
    ensures r.Some? <==> i < |t.args|
    ensures r.Some? ==> r.value == t.args[i]
  {
    if i < |t.args| then Some(t.args[i]) else None
  }

  /** `gdb.lookup_type(name)` against the debug information `env`: it yields a type
      of exactly that name, or raises. */
  function Lookup(env: map<string, TypeDesc>, name: string): (r: Option<TypeDesc>)
    ensures r.Some? ==> r.value.name == name && name in env && r.value == env[name]
    ensures r.None? ==> name !in env || env[name].name != name
  {
    if name in env && env[name].name == name then Some(env[name]) else None
  }

  /** The position of the member called `name`, if the object is a record that has one. */
  function FindMember(v: Value, name: string): (r: Option<nat>)
    ensures r.Some? ==> v.RecordV? && r.value < |v.members| && v.members[r.value].name == name
    ensures r.None? ==> !v.RecordV? || forall i :: 0 <= i < |v.members| ==> v.members[i].name != name
  {
    if v.RecordV? then FindFrom(v.members, name, 0) else None
  }

  function FindFrom(ms: seq<Member>, name: string, i: nat): (r: Option<nat>)
    requires i <= |ms|
    ensures r.Some? ==> i <= r.value < |ms| && ms[r.value].name == name
    ensures r.None? ==> forall j :: i <= j < |ms| ==> ms[j].name != name
    decreases |ms| - i
  {
    if i == |ms| then None
    else if ms[i].name == name then Some(i)
    else FindFrom(ms, name, i + 1)
  }

  /** The expression `(obj).name`: it resolves when `obj` is a record with that member. */
  function Dot(obj: Ref, name: string): (r: Ref)
    ensures r.Resolved? <==> obj.Resolved? && FindMember(obj.v, name).Some?
  {
    match obj
    case Unresolved => Unresolved
    case Resolved(v) =>
      match FindMember(v, name)
      case Some(i) => Resolved(v.members[i].val)
      case None => Unresolved
  }
}
