# Used-size calculator, modelled in Dafny

This project models the used-size calculator of a set of GDB scripts for a
masternode daemon. The calculator computes how many bytes an object really
occupies. That is the fixed control block of each container plus the payload the
container owns, and not just the `sizeof` of the object's static type.

The model covers:

- the type classifier `get_special_type_obj` / `is_special_type`;
- `get_instance_size`;
- the vector, list, pair and map handlers;
- the three masternode record handlers;
- the reflective simple-class handler;
- the two private-send handlers.

What gdb shows of the halted process is data in the model:

- A type is a `TypeDesc`: its printed name, its `sizeof`, its template arguments
  and its fields.
- Memory is a `Value`: vector elements, list links, pair members, the red-black
  tree behind a map, the members of a record, or raw bytes.
- An object expression is a `Ref`, which either resolves to memory or does not.
- `gdb.lookup_type` is a lookup in a map of named types, `env`.

Every size computation returns `Size(n)` or `Failed(fault)`. Terms are added left
to right, and the first fault wins, as Python's evaluation order and exception
propagation do. `Unreadable` stands for any error the debugger raises.
`NoProgress` stands for the list loop that never ends.

The map handler walks the tree's nodes through their links with
`_Rb_tree_increment`'s successor step. `MapWalk` models that walk as a method over
a node table. The table is derived from the tree by `RbTree.Table`, with the
header node and null links of libstdc++. The method returns the nodes it visits:
every node exactly once, in in-order, each holding the entry at its in-order
position, and the walk ends at the header. Its total is the sum of the parts read
at those nodes, which is what `UsedSize.MapSize` defines. Because the casts
described below never read into a node's payload, every node adds the same part.

The pair and map handlers both have a branch for a value type no handler accepts.
That branch adds the KEY type's `sizeof`, not the value type's. The model follows
the code as written. `UsedSizeFacts.PairFlatValueCountsKeySize`,
`UsedSizeFacts.MapFlatValueCountsKeySize` and `UsedSizeFacts.PairDefectWitness`
state the effect: a `std::pair<std::vector<int>, char>` holding an empty vector
comes out as 48 bytes, not 25.

Handlers name the memory they read by gdb expressions. A member path such as
`obj.lastPing` or an element pointer such as `(v._M_impl._M_start + i)` reaches
what it names, and the model reads that member's value. The map and list loops
build cast expressions without outer parentheses: `*(K*)$value` for a map node's
key or value, and `*(L*)($current + 1)` for a list element. gdb binds a member
path that a nested handler appends to `$value` or to `($current + 1)`, not to the
cast, and raises because no such member exists there. So only a handler that
prints the whole expression survives: a pair of two flat members.
`UsedSize.CastSize` is that outcome. For example, `std::map<int, std::vector<int>>`
with one node raises (`UsedSizeFacts.MapOfIntToVectorFails`).

When an object expression resolves to no memory, a special handler raises,
because each one evaluates the expression, directly or through `p`. A type no
handler accepts is answered by its `sizeof` without any read.

## Model

| member | source | states |
|---|---|---|
| Classifier.Classify | used_size.py:13-28 | the chosen handler is one whose name test accepts the type; no handler is chosen only when every name test rejects it |
| Classifier.IsSpecial | used_size.py:31-34 | definition: some handler's name test accepts the type; `Classifier.ClassifyIsTheMatchingShape` and `Classifier.SpecialNames` state what that means |
| Classifier.ClassifyIsTheMatchingShape | used_size.py:13-34 | a handler's name test accepts a type exactly when the classifier picks that handler, and a type is special exactly when some test accepts it, so the order of the tests does not matter |
| Classifier.NamesMatchAtMostOneShape | used_size.py:13-28 | no printed name is accepted by two handlers, including the `std::__cxx11::` spellings of the container tests |
| Classifier.SpecialNames | used_size.py:31-34 | only names beginning with 's' (the `std::` containers) and the three masternode record names are special |
| UsedSize.GetInstanceSize | used_size.py:37-41 | definition: `sizeof` for a type no handler accepts, otherwise the handler's used size; stated by `UsedSizeFacts.NonSpecialIsSizeof` and `UsedSizeFacts.UnresolvedSpecialFails` |
| UsedSize.InstanceSize | used_size.py:13-41 | definition: the dispatch of resolved memory to the handler the classifier picks; the handler lemmas below state each case |
| UsedSize.VectorSize | used_size.py:66-78 | definition of the vector handler; stated by the four vector lemmas below |
| UsedSize.CastSize | used_size.py:210-224 | definition: a flat type adds its `sizeof`, a pair of two flat members adds both `sizeof`s, any other special type raises, because its handler appends a member path to an unparenthesised cast; related to the handlers by `UsedSizeFacts.CastSizeAgreesWithHandler` |
| UsedSize.ListLoop | used_size.py:112-118 | definition of the list loop under a pass budget, with a body that never assigns `$current`; stated by `UsedSizeFacts.ListLoopStalls` |
| UsedSize.ListSize | used_size.py:107-119 | definition of the list handler, `NoProgress` where its loop never stops; related to the loop by `UsedSizeFacts.ListSizeIsTheLoop` |
| UsedSize.PairSize | used_size.py:147-168 | definition of the pair handler; stated by the four pair lemmas below |
| UsedSize.MapSize | used_size.py:201-226 | definition of the map handler; stated by `UsedSizeFacts.MapOfPlainEntries`, `UsedSizeFacts.EmptyMapWithSpecialPart` and `UsedSizeFacts.MapWalkClosedForm`, and computed by `MapWalk.MapUsedSize` |
| UsedSize.TreeSize | used_size.py:208-226 | definition: each node's key part then value part, summed over the tree; stated by `UsedSizeFacts.TreeSizeIsInOrderSum` |
| UsedSize.SizeAt | used_size.py:254-255 | definition: `get_instance_size(obj.name, t)`, the member's value when the member exists, otherwise an expression that does not resolve; stated by `UsedSizeFacts.SizeAtPlain` |
| UsedSize.VectorAt | used_size.py:59-61 | definition: `VectorObj.from_name(obj.name).get_used_size()`, the vector handler at the member's own declared type, raising when the member does not exist; used by `UsedSizeFacts.MasternodeFormula` and `UsedSizeFacts.VerificationFormula` |
| UsedSize.MapAt | used_size.py:186-188 | definition: `MapObj.from_name(obj.name).get_used_size()`, the map handler at the member's own declared type, raising when the member does not exist; used by `UsedSizeFacts.MasternodeFormula` |
| UsedSize.MasternodeSize | used_size.py:252-258 | definition of the `CMasternode` handler; stated by `UsedSizeFacts.MasternodeFormula` and `UsedSizeFacts.MasternodeLookupMissingFails` |
| UsedSize.VerificationSize | used_size.py:271-277 | definition of the `CMasternodeVerification` handler; stated by `UsedSizeFacts.VerificationFormula` and `UsedSizeFacts.VerificationLookupMissingFails` |
| UsedSize.BroadcastSize | used_size.py:290-293 | definition of the `CMasternodeBroadcast` handler; stated by `UsedSizeFacts.BroadcastFormula` and `UsedSizeFacts.BroadcastLookupMissingFails` |
| UsedSizeFacts.NonSpecialIsSizeof | used_size.py:37-41 | a type no handler accepts has used size `sizeof`, whatever the object is and whether or not it resolves |
| UsedSizeFacts.UnresolvedSpecialFails | used_size.py:37-41 | a special type on an expression that resolves to nothing makes its handler raise |
| UsedSizeFacts.LookedUpTypesArePlain | used_size.py:252-277 | the types the record handlers look up by name are not special, so each adds its `sizeof` |
| UsedSizeFacts.SizeAtPlain | used_size.py:254-255 | `get_instance_size` of a member of flat type is the type's `sizeof`, whether or not the member exists |
| UsedSizeFacts.VectorOfPlainElements | used_size.py:66-78 | a vector of flat elements uses its control block plus element count times element `sizeof` |
| UsedSizeFacts.ElementsSizeIsSum | used_size.py:70-77 | the loop over special elements adds each element's used size once, in order |
| UsedSizeFacts.VectorOfSpecialElements | used_size.py:70-77 | a vector of special elements succeeds exactly when every element does, and then uses its control block plus the elements' used sizes |
| UsedSizeFacts.EmptyVector | used_size.py:70-78 | an empty vector uses exactly its control block, on both branches |
| UsedSizeFacts.VectorOfPlainPairs | used_size.py:70-77 | a vector of pairs of flat members uses its control block plus, per element, the sum of the two members' `sizeof` |
| UsedSizeFacts.EmptyList | used_size.py:107-119 | a list whose sentinel links to itself uses exactly its control block |
| UsedSizeFacts.ListLoopStalls | used_size.py:112-118 | once a pass adds bytes without raising, the loop does not stop within any number of passes, because `$current` is never reassigned |
| UsedSizeFacts.ListSizeIsTheLoop | used_size.py:107-119 | the list handler is `NoProgress` exactly when its loop, started at the sentinel's successor with the control block as total, stops for no number of passes; otherwise it is what the loop yields |
| UsedSizeFacts.NonEmptyListNeverFinishes | used_size.py:112-118 | a list with a node whose element pass does not raise never yields a size |
| UsedSizeFacts.ListOfSpecialElementsRaises | used_size.py:112-116 | a list with a node whose element type is special and not a pair raises on the first pass, at the cast `*(L*)($current + 1)` |
| UsedSizeFacts.CastSizeAgreesWithHandler | used_size.py:147-150 | where a cast expression yields a size, it equals the handler's used size on any object of that type |
| UsedSizeFacts.PairOfPlainMembers | used_size.py:147-150 | a pair of two flat members uses the sum of their `sizeof`; the object is still printed first, so it must resolve |
| UsedSizeFacts.PairWithSpecialMember | used_size.py:152-168 | with a special member, a pair adds the used size of each special member, the `sizeof` of a flat key, and the key's `sizeof` for a flat value |
| UsedSizeFacts.PairFlatValueCountsKeySize | used_size.py:161-166 | with a special key and a flat value, the pair uses key size plus key `sizeof`, which differs from key size plus value `sizeof` whenever the two `sizeof`s differ |
| UsedSizeFacts.PairDefectWitness | used_size.py:147-168 | a `std::pair<std::vector<int>, char>` holding an empty vector is sized 48 bytes |
| UsedSizeFacts.MapOfPlainEntries | used_size.py:202-203 | a map of flat key and value uses its control block plus node count times the sum of the two `sizeof`s |
| UsedSizeFacts.EmptyMapWithSpecialPart | used_size.py:204-205 | an empty map on the walking path uses exactly its control block |
| UsedSizeFacts.TreeSizeIsInOrderSum | used_size.py:206-239 | the tree recursion adds each node's key part and value part once, in in-order |
| UsedSizeFacts.MapWalkSumsInOrderEntries | used_size.py:201-239 | a non-empty map on the walking path uses its control block plus every node's key and value parts, in in-order |
| UsedSizeFacts.TreeSizeClosedForm | used_size.py:208-226 | the parts read at a node do not depend on its payload, so the nodes add node count copies of one part |
| UsedSizeFacts.MapWalkClosedForm | used_size.py:204-226 | a map on the walking path uses its control block plus node count times the part of one node, or that part's fault when it has a node |
| UsedSizeFacts.MapSizeDependsOnlyOnNodeCount | used_size.py:201-239 | two maps of the same type with as many nodes have the same used size, whatever their entries and however their trees are balanced |
| UsedSizeFacts.MapFlatValueCountsKeySize | used_size.py:210-226 | a node with a special key and a flat value adds the key's cast size and then the key's `sizeof` again, not the value's |
| UsedSizeFacts.MapOfIntToVectorFails | used_size.py:219-224 | a `std::map<int, std::vector<int>>` with one node raises |
| UsedSizeFacts.MasternodeFormula | used_size.py:252-258 | `CMasternode` succeeds exactly when its signature vector and vote map do, and then uses sizeof(masternode_info_t) + sizeof(CMasternodePing) + signature + 4 * 8 + 2 * 1 + votes |
| UsedSizeFacts.MasternodeLookupMissingFails | used_size.py:252-258 | `CMasternode` raises when `masternode_info_t` or `CMasternodePing` is missing from the debug information |
| UsedSizeFacts.VerificationFormula | used_size.py:271-277 | `CMasternodeVerification` succeeds exactly when its two signature vectors do, and then uses 2 * sizeof(CTxIn) + sizeof(CService) + 2 * 8 + both signatures |
| UsedSizeFacts.VerificationLookupMissingFails | used_size.py:271-277 | `CMasternodeVerification` raises when `CTxIn` or `CService` is missing from the debug information |
| UsedSizeFacts.BroadcastFormula | used_size.py:290-293 | `CMasternodeBroadcast` succeeds exactly when the same object read as `CMasternode` does, and then uses one byte more |
| UsedSizeFacts.BroadcastLookupMissingFails | used_size.py:290-293 | `CMasternodeBroadcast` raises when `CMasternode` is missing, or when `masternode_info_t` or `CMasternodePing` is, through the masternode handler it calls |
| MapWalk.Increment | used_size.py:228-238 | on any node table with libstdc++'s local link structure, the successor step leads from the i-th node in in-order to the (i+1)-th, and from the last node to the header |
| MapWalk.WalkNodes | used_size.py:206-239 | the loop of node-count steps from the header's leftmost link visits nodes 1 to n in order, the j-th of them holding the j-th entry in in-order, ends at the header, and adds the parts read at each visited node once |
| MapWalk.MapUsedSize | used_size.py:201-239 | the map handler, with its closed form, empty case and node walk, computes the used size the calculator defines for the map |
| RbTree.TableIsWellLaidOut | used_size.py:207-238 | the node table of every map has the header and child/parent links the walk relies on, and its i-th node carries the i-th payload in in-order |
| SimpleClass.IsThisType | simple_class_obj.py:14-27 | definition: the printed name is one of the eight listed types; stated by `SimpleClass.RecordShapesAreSimpleClasses` |
| SimpleClass.GetUsedSize | simple_class_obj.py:29-42 | the field loop adds exactly the terms of the fields with a byte position, in declaration order: the base-class slots on the same object, the data members on `(obj).name` |
| SimpleClass.InstanceFieldsCount | simple_class_obj.py:32-35 | a field is counted as often as it is declared when it has a byte position, and never when it is static |
| SimpleClass.ClassSizeCharacterized | simple_class_obj.py:29-42 | the handler succeeds exactly when every instance field's term does, and then adds each instance field's bytes once |
| SimpleClass.NoInstanceFieldsIsZero | simple_class_obj.py:30-35 | a class whose fields are all static uses 0 bytes |
| SimpleClass.FieldOrderIsIrrelevant | simple_class_obj.py:31-42 | declaring the same fields in another order changes neither success nor the size |
| SimpleClass.PlainClassSize | simple_class_obj.py:36-41 | with no special field, the used size is the sum of the instance fields' declared sizes |
| SimpleClass.PaddingIsNotCounted | simple_class_obj.py:29-42 | a class of an `int` and a `bool` with `sizeof` 8 uses 5 bytes, not its `sizeof` |
| SimpleClass.VectorFieldIsFollowed | simple_class_obj.py:40-41 | a `std::vector<int>` member holding three elements is sized by the vector handler: the class uses 4 + 36 + 1 bytes against a `sizeof` of 32 |
| SimpleClass.RecordShapesAreSimpleClasses | simple_class_obj.py:14-27 | the three masternode records are also simple classes, and no container is |
| PrivateSend.IsQueue | privatesend.py:21-23 | definition: the printed name is `CDarksendQueue`; stated by `PrivateSend.RecognisersAreExact` |
| PrivateSend.IsEntry | privatesend.py:39-41 | definition: the printed name is `CDarkSendEntry`; stated by `PrivateSend.RecognisersAreExact` |
| PrivateSend.QueueSize | privatesend.py:25-30 | definition of the queue handler; stated by `PrivateSend.QueueFormula` and `PrivateSend.QueueWithCalculator` |
| PrivateSend.EntrySize | privatesend.py:43-47 | definition of the entry handler; stated by `PrivateSend.EntryFormula`, `PrivateSend.EntryFailsAtFirstFault` and `PrivateSend.EntryWithCalculator` |
| PrivateSend.QueueFormula | privatesend.py:25-30 | a queue succeeds exactly when `CTxIn` is known and its `vin` and `vchSig` terms succeed, and then uses int + vin + int64 + 2 * bool + vchSig, so never less than that literal overhead |
| PrivateSend.EntryFormula | privatesend.py:43-47 | an entry succeeds exactly when its two vectors and both looked-up members succeed, and then uses their sum |
| PrivateSend.EntryFailsAtFirstFault | privatesend.py:43-47 | an unreadable `vecTxDSIn` decides a failing entry, before the type lookups |
| PrivateSend.RecognisersAreExact | privatesend.py:21-41 | the two recognisers accept disjoint names, and both names are simple classes that the used-size calculator does not treat specially |
| PrivateSend.QueueWithCalculator | privatesend.py:25-30 | with the calculator's helpers, a queue uses 8 + sizeof(CTxIn) + int64 + 1 + vchSig + 1 bytes, and succeeds exactly when `vchSig` does |
| PrivateSend.EntryWithCalculator | privatesend.py:43-47 | with the calculator's helpers, an entry uses both vectors plus sizeof(CTransaction) + sizeof(CService), and succeeds exactly when both vectors do |

## Left out

- `UsedSizeCommand`, and the log_size, log_detailed and test_fields scripts: argument parsing, command registration and log files around the calculator.
- The `p` commands and `print` calls: their only effect is debugger output. A `p` on an expression that does not resolve is kept as a fault.
- Expression strings and the convenience variables `$node`, `$value`, `$current`, `$head` and `$tmp_node`: the model reads structured values instead. Member and element paths are modelled by the member's value; the unparenthesised casts of the map and list loops are modelled by `UsedSize.CastSize`, which lets a handler print the whole object and nothing more.
- The payload offsets `$node + 1` and `$value + 4` of the map walk: no handler reads into a node's payload through those casts, so where the payload lies is not modelled.
- `ListObj.size` is never called by the list handler and is not modelled.
- A list loop that never stops is modelled by a pass budget: `UsedSize.ListLoop` runs out of passes for every budget, and `UsedSize.ListSize` calls that outcome `NoProgress`. The bytes added before the loop is interrupted are not part of the result.
- `VectorObj.size` is the element count, read as `_M_finish - _M_start`; pointer arithmetic is not modelled.
- `from_name` is modelled as reading the member's own declared type, which requires the member to exist.
- common_helpers and stl_containers are not part of this model. The simple-class and private-send handlers take `get_instance_size`, `VectorObj` and the `SIZE_OF_*` constants as parameters. The `*WithCalculator` lemmas assume common_helpers' `get_instance_size` matches used_size.py's `UsedSize.GetInstanceSize`, stl_containers' `VectorObj` matches used_size.py's `UsedSize.VectorOf`, and `SIZE_OF_INT`/`SIZE_OF_BOOL` match used_size.py's; `SIZE_OF_INT64` stays a parameter.
- Red-black colours and rebalancing: the walk only follows links.
- Node addresses: nodes are named by their in-order position, the header by `n + 1` and null by 0.
- MapWalk.WalkNodes: proved for the node table `RbTree.Table(tree)` of a tree, not for arbitrary memory. `MapWalk.Increment` alone is proved for any table with the local link structure.
- Which error the debugger raises: every error is the single fault `Unreadable`.
- Recursion depth: the stack overflow that a cyclic or very deep object would cause is not modelled.
