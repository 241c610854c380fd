/** The node walk of `MapObj.get_used_size`, over the map's node table.

  The walk starts at the header's leftmost link and takes `_M_node_count` steps.
  Each step is the successor step of libstdc++'s `_Rb_tree_increment`: down the
  right link and then left as far as possible, or, without a right child, up
  while the node is its parent's right child, with the header's special case at
  the end.
 */
module MapWalk {
  import opened Outcomes
  import opened Inspect
  import opened Classifier
  import opened UsedSize
  import opened UsedSizeFacts
  import opened RbTree

  /** One successor step: from the node at in-order position `node` to the node at
      position `node + 1`, and from the last node to the header. */
  method Increment(table: map<nat, RbNode>, n: nat, node: nat, ghost spans: map<nat, Span>) returns (next: nat)
    requires WellLaidOut(table, spans, n) && 1 <= node <= n
    ensures node < n ==> next == node + 1
    ensures node == n ==> next == n + 1
  {
    assert LocalShape(table, spans, n, node);
    var x := node;
    if table[x].right != 0 {
      x := table[x].right;
      assert LocalShape(table, spans, n, x);
      while table[x].left != 0
        invariant 1 <= x <= n && LocalShape(table, spans, n, x)
        invariant spans[x].lo == node + 1
        decreases spans[x].hi - spans[x].lo
      {
        x := table[x].left;
        assert LocalShape(table, spans, n, x);
      }
    } else {
      var y := table[x].parent;
      while x == table[y].right
        invariant y in table
        invariant || (1 <= x <= n && LocalShape(table, spans, n, x) && y == table[x].parent && spans[x].hi == node + 1)
                  || (x == n + 1 && y == table[n + 1].parent && y == n && node == n && LocalShape(table, spans, n, y))
        decreases if x == n + 1 then 0 else n + 2 - (spans[x].hi - spans[x].lo)
      {
        if y != n + 1 {
          assert LocalShape(table, spans, n, y);
        }
        x := y;
        y := table[y].parent;
      }
      if x != n + 1 {
        var r := table[x].right;
        if r != 0 {
          assert LocalShape(table, spans, n, r);
        }
        if y != n + 1 {
          assert LocalShape(table, spans, n, y);
        }
      }
      if table[x].right != y {
        x := y;
      }
    }
    next := x;
  }

  /** `MapObj.get_used_size` on a map whose memory is `table`, holding `count`
      nodes: the closed form, the empty map, or the walk over the nodes. It computes
      the in-order sum that defines the map's used size, whatever the shape of the
      tree. */
  method MapUsedSize(env: map<string, TypeDesc>, t: TypeDesc, table: map<nat, RbNode>, count: nat, ghost tree: Tree)
    returns (r: SizeResult)
    requires Classify(t) == MapShape
    requires table == Table(tree) && count == NodeCount(tree)
    ensures r == InstanceSize(env, MapV(tree), t)
  {
    assert InstanceSize(env, MapV(tree), t) == MapSize(env, MapV(tree), t);
    if |t.args| == 0 {
      return Failed(Unreadable);
    }
    var kt := t.args[0];
    var vArg := TemplateArg(t, 1);
    if !IsSpecial(kt) && vArg.None? {
      return Failed(Unreadable);
    }
    if !IsSpecial(kt) && !IsSpecial(vArg.value) {
      return Size(t.sizeof + count * (kt.sizeof + vArg.value.sizeof));
    }
    if count == 0 {
      return Size(t.sizeof);
    }
    var last;
    ghost var visited;
    r, visited, last := WalkNodes(kt, vArg, table, count, Size(t.sizeof), tree);
    MapWalkSumsInOrderEntries(env, tree, t);
  }

  /** The loop of `MapObj.get_used_size`: from the leftmost node, `count` times add
      the key part and value part read at the node to the running total and step
      to the successor. The nodes visited are every node once, in in-order, each
      holding the entry at its in-order position, and the walk ends at the header. */
  method WalkNodes(kt: TypeDesc, vArg: Option<TypeDesc>, table: map<nat, RbNode>, count: nat, start: SizeResult, ghost tree: Tree)
    returns (total: SizeResult, ghost visited: seq<nat>, last: nat)
    requires table == Table(tree) && count == NodeCount(tree) > 0
    ensures |visited| == count && forall j :: 0 <= j < count ==> visited[j] == j + 1
    ensures forall j :: 0 <= j < count ==> CarriesPayload(table, InOrder(tree), visited[j])
    ensures last == count + 1
    ensures total == Plus(start, SumOf(EntryTerms(kt, vArg), InOrder(tree)))
  {
    ghost var es := InOrder(tree);
    ghost var f := EntryTerms(kt, vArg);
    TableIsWellLaidOut(tree);
    total := start;
    var node := table[count + 1].left;
    var i := 0;
    visited := [];
    while i < count
      invariant 0 <= i <= count && node == i + 1
      invariant |visited| == i && forall j :: 0 <= j < i ==> visited[j] == j + 1
      invariant total == Plus(start, SumOf(f, es[..i]))
    {
      var part := Plus(NodeKeyPart(kt), NodeValuePart(kt, vArg));
      assert part == f(es[i]);
      assert es[..i + 1] == es[..i] + [es[i]];
      SumOfSnoc(f, es[..i], es[i]);
      PlusAssociative(start, SumOf(f, es[..i]), part);
      total := Plus(total, part);
      visited := visited + [node];
      node := Increment(table, count, node, Spans(tree));
      i := i + 1;
    }
    assert es[..count] == es;
    last := node;
  }
}
