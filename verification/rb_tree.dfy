/** The node table behind a `std::map`, as the map walk reads it.

  libstdc++ keeps a header node beside the tree: the header's `_M_left` is the
  leftmost node, its `_M_right` the rightmost node and its `_M_parent` the root,
  whose own `_M_parent` is the header; a missing child is a null link. Here a
  node is named by its position in in-order, counting from 1, the header by
  `n + 1` and null by 0. The walk only follows links and compares them, so the
  names carry no information it could use; they make "the i-th node in in-order"
  something a postcondition can say.
 */
module RbTree {
  import opened Inspect

  datatype RbNode = RbNode(left: nat, right: nat, parent: nat, key: Value, val: Value)

  /** The in-order positions `[lo, hi)` covered by the subtree rooted at a node. */
  datatype Span = Span(lo: nat, hi: nat)

  /** A tree whose nodes carry their names: `id` is the node's own name and
      `[lo, hi)` the names of its subtree. */
  datatype Named =
    | NLeaf
    | NNode(left: Named, id: nat, lo: nat, hi: nat, key: Value, val: Value, right: Named)

  /** The nodes of `t` named in in-order from `lo` on. */
  function Number(t: Tree, lo: nat): (nt: Named)
    ensures nt.NLeaf? <==> t.Leaf?
    ensures nt.NNode? ==> nt.id == lo + NodeCount(t.left)
  {
    match t
    case Leaf => NLeaf
    case Node(l, key, val, r) =>
      var id := lo + NodeCount(l);
      NNode(Number(l, lo), id, lo, lo + NodeCount(t), key, val, Number(r, id + 1))
  }

  /** `nt` names `[lo, hi)` in in-order: each node's name follows its left subtree's
      names and precedes its right subtree's. */
  ghost predicate Numbered(nt: Named, lo: nat, hi: nat)
    decreases nt
  {
    match nt
    case NLeaf => lo == hi
    case NNode(l, id, nlo, nhi, _, _, r) =>
      && nlo == lo && nhi == hi && lo <= id < hi
      && Numbered(l, lo, id) && Numbered(r, id + 1, hi)
  }

  /** Numbering names the nodes in in-order. */
  lemma {:induction false} NumberIsNumbered(t: Tree, lo: nat)
    ensures Numbered(Number(t, lo), lo, NodeCount(t) + lo)
  {
    if t.Node? {
      NumberIsNumbered(t.left, lo);
      NumberIsNumbered(t.right, lo + NodeCount(t.left) + 1);
    }
  }

  /** The name of the root; null for an empty tree. */
  function RootId(nt: Named): nat
  {
    if nt.NLeaf? then 0 else nt.id
  }

  /** The node named `k`, the root hanging below `parent`; a name outside the tree
      gives a node of null links. */
  function NodeAt(nt: Named, parent: nat, k: nat): RbNode
    decreases nt
  {
    match nt
    case NLeaf => RbNode(0, 0, 0, Raw, Raw)
    case NNode(l, id, _, _, key, val, r) =>
      if k < id then NodeAt(l, id, k)
      else if k == id then RbNode(RootId(l), RootId(r), parent, key, val)
      else NodeAt(r, id, k)
  }

  /** The span of the subtree rooted at the node named `k`. */
  function SpanAt(nt: Named, k: nat): Span
    decreases nt
  {
    match nt
    case NLeaf => Span(0, 0)
    case NNode(l, id, lo, hi, _, _, r) =>
      if k < id then SpanAt(l, k)
      else if k == id then Span(lo, hi)
      else SpanAt(r, k)
  }

  /** The header node: leftmost, rightmost and root; all three are the header itself
      for an empty tree, except the root link, which is null. */
  function Header(tree: Tree): RbNode
  {
    var n := NodeCount(tree);
    if n == 0 then RbNode(n + 1, n + 1, 0, Raw, Raw)
    else RbNode(1, n, RootId(Number(tree, 1)), Raw, Raw)
  }

  /** What the memory at name `k` holds: a node, or the header at `n + 1`. */
  function Slot(tree: Tree, k: nat): RbNode
  {
    var n := NodeCount(tree);
    if k == n + 1 then Header(tree) else NodeAt(Number(tree, 1), n + 1, k)
  }

  /** The memory of a map whose tree is `tree`: its nodes and its header. */
  function Table(tree: Tree): map<nat, RbNode>
  {
    var n := NodeCount(tree);
    map k: nat | 1 <= k <= n + 1 :: Slot(tree, k)
  }

  ghost function Spans(tree: Tree): map<nat, Span>
  {
    var n := NodeCount(tree);
    map k: nat | 1 <= k <= n :: SpanAt(Number(tree, 1), k)
  }

  /** The node at `k` is stored and its span lies among the `n` nodes around `k`. */
  ghost predicate LocalSpan(table: map<nat, RbNode>, spans: map<nat, Span>, n: nat, k: nat)
  {
    k in table && k in spans && 1 <= spans[k].lo <= k < spans[k].hi <= n + 1
  }

  /** The left link is null exactly when nothing precedes the node in its span, and
      otherwise leads to the node whose span is the part before it and whose parent
      link points back. */
  ghost predicate LocalLeft(table: map<nat, RbNode>, spans: map<nat, Span>, n: nat, k: nat)
  {
    && k in table && k in spans
    && var c := table[k].left;
    && (c == 0 <==> spans[k].lo == k)
    && (c != 0 ==>
          && c in table && c in spans && 1 <= c <= n
          && spans[c] == Span(spans[k].lo, k) && table[c].parent == k)
  }

  /** The right link, symmetrically. */
  ghost predicate LocalRight(table: map<nat, RbNode>, spans: map<nat, Span>, n: nat, k: nat)
  {
    && k in table && k in spans
    && var c := table[k].right;
    && (c == 0 <==> spans[k].hi == k + 1)
    && (c != 0 ==>
          && c in table && c in spans && 1 <= c <= n
          && spans[c] == Span(k + 1, spans[k].hi) && table[c].parent == k)
  }

  /** The parent link leads to the header, whose parent link points back, only from
      the root, whose span is everything; otherwise it leads to a node that links
      down to this one. */
  ghost predicate LocalParent(table: map<nat, RbNode>, spans: map<nat, Span>, n: nat, k: nat)
  {
    && k in table && k in spans
    && var q := table[k].parent;
    && (q == n + 1 ==> spans[k] == Span(1, n + 1) && n + 1 in table && table[n + 1].parent == k)
    && (q != n + 1 ==> q in table && 1 <= q <= n && (table[q].left == k || table[q].right == k))
  }

  /** What one node's links say about the tree around it, for a tree of `n` nodes
      named by in-order position with the header at `n + 1`. */
  ghost predicate LocalShape(table: map<nat, RbNode>, spans: map<nat, Span>, n: nat, k: nat)
  {
    && LocalSpan(table, spans, n, k) && LocalLeft(table, spans, n, k)
    && LocalRight(table, spans, n, k) && LocalParent(table, spans, n, k)
  }

  /** A node table laid out as a binary search tree of `n` nodes with its header. */
  ghost predicate WellLaidOut(table: map<nat, RbNode>, spans: map<nat, Span>, n: nat)
  {
    && n + 1 in table
    && (forall k :: 1 <= k <= n ==> LocalShape(table, spans, n, k))
    && (n > 0 ==> table[n + 1].left == 1 && table[n + 1].right == n && 1 <= table[n + 1].parent <= n)
  }

  /** The node at `k` holds the `k`-th of the payloads `es`. `MapWalk.WalkNodes`
      states with it that the j-th node it visits holds the j-th entry in in-order. */
  ghost predicate CarriesPayload(table: map<nat, RbNode>, es: seq<Entry>, k: nat)
  {
    k in table && 1 <= k <= |es| && table[k].key == es[k - 1].key && table[k].val == es[k - 1].val
  }

  /* The facts below are about the node named `k` in a subtree `nt` naming
     `[lo, hi)`, whose root hangs below `p`. */

  /** The node's span lies inside the subtree and contains the node. */
  ghost predicate SpanInside(nt: Named, lo: nat, hi: nat, k: nat)
  {
    var sp := SpanAt(nt, k);
    lo <= sp.lo <= k < sp.hi <= hi
  }

  /** The left link is null exactly when nothing precedes the node in its span. */
  ghost predicate LeftNull(nt: Named, p: nat, k: nat)
  {
    NodeAt(nt, p, k).left == 0 <==> SpanAt(nt, k).lo == k
  }

  /** A left child's span is the part of the node's span before the node. */
  ghost predicate LeftChildSpan(nt: Named, p: nat, k: nat)
  {
    var c := NodeAt(nt, p, k).left;
    var sp := SpanAt(nt, k);
    c != 0 ==> sp.lo <= c < k && SpanAt(nt, c) == Span(sp.lo, k)
  }

  /** A left child's parent link points back. */
  ghost predicate LeftChildParent(nt: Named, p: nat, k: nat)
  {
    var c := NodeAt(nt, p, k).left;
    c != 0 ==> NodeAt(nt, p, c).parent == k
  }

  /** The right link is null exactly when nothing follows the node in its span. */
  ghost predicate RightNull(nt: Named, p: nat, k: nat)
  {
    NodeAt(nt, p, k).right == 0 <==> SpanAt(nt, k).hi == k + 1
  }

  /** A right child's span is the part of the node's span after the node. */
  ghost predicate RightChildSpan(nt: Named, p: nat, k: nat)
  {
    var c := NodeAt(nt, p, k).right;
    var sp := SpanAt(nt, k);
    c != 0 ==> k < c < sp.hi && SpanAt(nt, c) == Span(k + 1, sp.hi)
  }

  /** A right child's parent link points back. */
  ghost predicate RightChildParent(nt: Named, p: nat, k: nat)
  {
    var c := NodeAt(nt, p, k).right;
    c != 0 ==> NodeAt(nt, p, c).parent == k
  }

  /** Only the root hangs below `p`. */
  ghost predicate RootParent(nt: Named, p: nat, k: nat)
  {
    NodeAt(nt, p, k).parent == p <==> k == RootId(nt)
  }

  /** The root's span is the whole subtree. */
  ghost predicate RootSpan(nt: Named, lo: nat, hi: nat, k: nat)
  {
    k == RootId(nt) ==> SpanAt(nt, k) == Span(lo, hi)
  }

  /** Any node but the root hangs below a node of the subtree. */
  ghost predicate ParentInside(nt: Named, lo: nat, hi: nat, p: nat, k: nat)
  {
    var q := NodeAt(nt, p, k).parent;
    q != p ==> lo <= q < hi
  }

  /** A parent inside the subtree links down to the node. */
  ghost predicate ParentLinksDown(nt: Named, p: nat, k: nat)
  {
    var q := NodeAt(nt, p, k).parent;
    q != p ==> NodeAt(nt, p, q).left == k || NodeAt(nt, p, q).right == k
  }

  /** The links of a node relative to its subtree. */
  ghost predicate ShapeFacts(nt: Named, lo: nat, hi: nat, p: nat, k: nat)
  {
    && SpanInside(nt, lo, hi, k)
    && LeftNull(nt, p, k) && LeftChildSpan(nt, p, k) && LeftChildParent(nt, p, k)
    && RightNull(nt, p, k) && RightChildSpan(nt, p, k) && RightChildParent(nt, p, k)
    && RootParent(nt, p, k) && RootSpan(nt, lo, hi, k)
    && ParentInside(nt, lo, hi, p, k) && ParentLinksDown(nt, p, k)
  }

  /** Every node of a numbered subtree whose root hangs below a node outside it has
      the links of a binary search tree laid out in in-order. */
  lemma {:induction false} SubtreeShape(nt: Named, lo: nat, hi: nat, p: nat, k: nat)
    requires Numbered(nt, lo, hi) && 1 <= lo <= k < hi
    requires p < lo || hi <= p
    ensures ShapeFacts(nt, lo, hi, p, k)
    decreases nt
  {
    var id := nt.id;
    if k < id {
      SubtreeShape(nt.left, lo, id, id, k);
      InLeftSubtree(nt, lo, hi, p, k);
    } else if k == id {
      AtRoot(nt, lo, hi, p);
    } else {
      SubtreeShape(nt.right, id + 1, hi, id, k);
      InRightSubtree(nt, lo, hi, p, k);
    }
  }

  lemma AtRoot(nt: Named, lo: nat, hi: nat, p: nat)
    requires Numbered(nt, lo, hi) && 1 <= lo < hi
    requires p < lo || hi <= p
    ensures ShapeFacts(nt, lo, hi, p, RootId(nt))
  {
    AtRootLeft(nt, lo, hi, p);
    AtRootRight(nt, lo, hi, p);
  }

  lemma AtRootLeft(nt: Named, lo: nat, hi: nat, p: nat)
    requires Numbered(nt, lo, hi) && 1 <= lo < hi
    ensures LeftNull(nt, p, nt.id) && LeftChildSpan(nt, p, nt.id) && LeftChildParent(nt, p, nt.id)
  {
    var l := nt.left;
    if l.NNode? {
      assert Numbered(l, lo, nt.id);
      LeftNode(nt, p, l.id);
    }
  }

  lemma AtRootRight(nt: Named, lo: nat, hi: nat, p: nat)
    requires Numbered(nt, lo, hi) && 1 <= lo < hi
    ensures RightNull(nt, p, nt.id) && RightChildSpan(nt, p, nt.id) && RightChildParent(nt, p, nt.id)
  {
    var r := nt.right;
    if r.NNode? {
      assert Numbered(r, nt.id + 1, hi);
      RightNode(nt, p, r.id);
    }
  }

  /** A node of the left subtree is the same node, with the same span, in the
      whole tree. */
  lemma LeftNode(nt: Named, p: nat, j: nat)
    requires nt.NNode? && j < nt.id
    ensures NodeAt(nt, p, j) == NodeAt(nt.left, nt.id, j)
    ensures SpanAt(nt, j) == SpanAt(nt.left, j)
  {
  }

  lemma RightNode(nt: Named, p: nat, j: nat)
    requires nt.NNode? && nt.id < j
    ensures NodeAt(nt, p, j) == NodeAt(nt.right, nt.id, j)
    ensures SpanAt(nt, j) == SpanAt(nt.right, j)
  {
  }

  /** The root links down to the roots of its two subtrees. */
  lemma RootLinks(nt: Named, p: nat)
    requires nt.NNode?
    ensures NodeAt(nt, p, nt.id).left == RootId(nt.left)
    ensures NodeAt(nt, p, nt.id).right == RootId(nt.right)
  {
  }

  /** Every fact about a node of the left subtree carries over to the whole tree. */
  lemma InLeftSubtree(nt: Named, lo: nat, hi: nat, p: nat, k: nat)
    requires nt.NNode? && lo <= k < nt.id && nt.id < hi
    requires p < lo || hi <= p
    requires ShapeFacts(nt.left, lo, nt.id, nt.id, k)
    ensures ShapeFacts(nt, lo, hi, p, k)
  {
    LeftNode(nt, p, k);
    LeftLeftChildParent(nt, lo, hi, p, k);
    LeftRightChildParent(nt, lo, hi, p, k);
    LeftParentLinksDown(nt, lo, hi, p, k);
  }

  lemma LeftLeftChildParent(nt: Named, lo: nat, hi: nat, p: nat, k: nat)
    requires nt.NNode? && lo <= k < nt.id && nt.id < hi
    requires SpanInside(nt.left, lo, nt.id, k) && LeftChildSpan(nt.left, nt.id, k)
    requires LeftChildParent(nt.left, nt.id, k)
    ensures LeftChildParent(nt, p, k)
  {
    var c := NodeAt(nt.left, nt.id, k).left;
    LeftNode(nt, p, k);
    if c != 0 {
      LeftNode(nt, p, c);
    }
  }

  lemma LeftRightChildParent(nt: Named, lo: nat, hi: nat, p: nat, k: nat)
    requires nt.NNode? && lo <= k < nt.id && nt.id < hi
    requires SpanInside(nt.left, lo, nt.id, k) && RightChildSpan(nt.left, nt.id, k)
    requires RightChildParent(nt.left, nt.id, k)
    ensures RightChildParent(nt, p, k)
  {
    var c := NodeAt(nt.left, nt.id, k).right;
    LeftNode(nt, p, k);
    if c != 0 {
      LeftNode(nt, p, c);
    }
  }

  lemma LeftParentLinksDown(nt: Named, lo: nat, hi: nat, p: nat, k: nat)
    requires nt.NNode? && lo <= k < nt.id && nt.id < hi
    requires ParentInside(nt.left, lo, nt.id, nt.id, k) && ParentLinksDown(nt.left, nt.id, k)
    requires RootParent(nt.left, nt.id, k)
    ensures ParentLinksDown(nt, p, k)
  {
    var q := NodeAt(nt.left, nt.id, k).parent;
    LeftNode(nt, p, k);
    if q != nt.id {
      LeftNode(nt, p, q);
    } else {
      RootLinks(nt, p);
    }
  }

  /** Every fact about a node of the right subtree carries over to the whole tree. */
  lemma InRightSubtree(nt: Named, lo: nat, hi: nat, p: nat, k: nat)
    requires nt.NNode? && lo <= nt.id < k < hi
    requires p < lo || hi <= p
    requires ShapeFacts(nt.right, nt.id + 1, hi, nt.id, k)
    ensures ShapeFacts(nt, lo, hi, p, k)
  {
    RightNode(nt, p, k);
    RightLeftChildParent(nt, lo, hi, p, k);
    RightRightChildParent(nt, lo, hi, p, k);
    RightParentLinksDown(nt, lo, hi, p, k);
  }

  lemma RightLeftChildParent(nt: Named, lo: nat, hi: nat, p: nat, k: nat)
    requires nt.NNode? && lo <= nt.id < k < hi
    requires SpanInside(nt.right, nt.id + 1, hi, k) && LeftChildSpan(nt.right, nt.id, k)
    requires LeftChildParent(nt.right, nt.id, k)
    ensures LeftChildParent(nt, p, k)
  {
    var c := NodeAt(nt.right, nt.id, k).left;
    RightNode(nt, p, k);
    if c != 0 {
      RightNode(nt, p, c);
    }
  }

  lemma RightRightChildParent(nt: Named, lo: nat, hi: nat, p: nat, k: nat)
    requires nt.NNode? && lo <= nt.id < k < hi
    requires SpanInside(nt.right, nt.id + 1, hi, k) && RightChildSpan(nt.right, nt.id, k)
    requires RightChildParent(nt.right, nt.id, k)
    ensures RightChildParent(nt, p, k)
  {
    var c := NodeAt(nt.right, nt.id, k).right;
    RightNode(nt, p, k);
    if c != 0 {
      RightNode(nt, p, c);
    }
  }

  lemma RightParentLinksDown(nt: Named, lo: nat, hi: nat, p: nat, k: nat)
    requires nt.NNode? && lo <= nt.id < k < hi
    requires ParentInside(nt.right, nt.id + 1, hi, nt.id, k) && ParentLinksDown(nt.right, nt.id, k)
    requires RootParent(nt.right, nt.id, k)
    ensures ParentLinksDown(nt, p, k)
  {
    var q := NodeAt(nt.right, nt.id, k).parent;
    RightNode(nt, p, k);
    if q != nt.id {
      RightNode(nt, p, q);
    } else {
      RootLinks(nt, p);
    }
  }

  /** The `i`-th payload in in-order, found by descending the tree. */
  function EntryAt(t: Tree, i: nat): Entry
    requires i < NodeCount(t)
  {
    match t
    case Node(l, key, val, r) =>
      if i < NodeCount(l) then EntryAt(l, i)
      else if i == NodeCount(l) then Entry(key, val)
      else EntryAt(r, i - NodeCount(l) - 1)
  }

  lemma ConcatLeft(a: seq<Entry>, x: Entry, b: seq<Entry>, i: nat)
    requires i < |a|
    ensures (a + [x] + b)[i] == a[i]
  {
  }

  lemma ConcatRight(a: seq<Entry>, x: Entry, b: seq<Entry>, j: nat)
    requires j < |b|
    ensures (a + [x] + b)[|a| + 1 + j] == b[j]
  {
  }

  /** Descending the tree finds the payload the in-order listing has there. */
  lemma {:induction false} EntryAtIsInOrder(t: Tree, i: nat)
    requires i < NodeCount(t)
    ensures EntryAt(t, i) == InOrder(t)[i]
    decreases t
  {
    match t
    case Node(l, key, val, r) =>
      if i < NodeCount(l) {
        EntryAtIsInOrder(l, i);
        ConcatLeft(InOrder(l), Entry(key, val), InOrder(r), i);
      } else if i > NodeCount(l) {
        EntryAtIsInOrder(r, i - NodeCount(l) - 1);
        ConcatRight(InOrder(l), Entry(key, val), InOrder(r), i - NodeCount(l) - 1);
      }
  }

  /** Where the node named `k` of a numbered tree sits: in the left subtree, at the
      root or in the right subtree. */
  lemma NumberedNodeAt(t: Tree, lo: nat, p: nat, k: nat)
    requires t.Node?
    ensures var id := lo + NodeCount(t.left);
            k < id ==> NodeAt(Number(t, lo), p, k) == NodeAt(Number(t.left, lo), id, k)
    ensures var id := lo + NodeCount(t.left);
            k == id ==> NodeAt(Number(t, lo), p, k).key == t.key && NodeAt(Number(t, lo), p, k).val == t.val
    ensures var id := lo + NodeCount(t.left);
            k > id ==> NodeAt(Number(t, lo), p, k) == NodeAt(Number(t.right, id + 1), id, k)
  {
  }

  /** The node named `k` carries the `k - lo`-th payload in in-order. */
  lemma {:induction false} NodeAtEntry(t: Tree, lo: nat, p: nat, k: nat)
    requires lo <= k < lo + NodeCount(t)
    ensures NodeAt(Number(t, lo), p, k).key == EntryAt(t, k - lo).key
    ensures NodeAt(Number(t, lo), p, k).val == EntryAt(t, k - lo).val
    decreases t
  {
    var id := lo + NodeCount(t.left);
    NumberedNodeAt(t, lo, p, k);
    if k < id {
      NodeAtEntry(t.left, lo, id, k);
    } else if k > id {
      NodeAtEntry(t.right, id + 1, id, k);
      assert k - lo - NodeCount(t.left) - 1 == k - (id + 1);
    }
  }

  /** The memory at a node's name is that node, and its span is the node's span. */
  lemma TableAt(tree: Tree, j: nat)
    requires 1 <= j <= NodeCount(tree)
    ensures j in Table(tree) && Table(tree)[j] == NodeAt(Number(tree, 1), NodeCount(tree) + 1, j)
    ensures j in Spans(tree) && Spans(tree)[j] == SpanAt(Number(tree, 1), j)
  {
  }

  /** The memory at name `j` holds the node named `j` of `nt`, with its span. */
  ghost predicate StoredAt(table: map<nat, RbNode>, spans: map<nat, Span>, nt: Named, n: nat, j: nat)
  {
    j in table && j in spans && table[j] == NodeAt(nt, n + 1, j) && spans[j] == SpanAt(nt, j)
  }

  /** A table holding the `n` nodes of `nt` under their names, and a header at
      `n + 1` whose parent link is the root. */
  ghost predicate Stores(table: map<nat, RbNode>, spans: map<nat, Span>, nt: Named, n: nat)
  {
    && n + 1 in table && table[n + 1].parent == RootId(nt)
    && forall j :: 1 <= j <= n ==> StoredAt(table, spans, nt, n, j)
  }

  lemma TableStores(tree: Tree)
    ensures Stores(Table(tree), Spans(tree), Number(tree, 1), NodeCount(tree))
  {
    var n := NodeCount(tree);
    forall j | 1 <= j <= n
      ensures StoredAt(Table(tree), Spans(tree), Number(tree, 1), n, j)
    {
      TableAt(tree, j);
    }
    assert Table(tree)[n + 1] == Header(tree);
  }

  lemma StoredSpan(table: map<nat, RbNode>, spans: map<nat, Span>, nt: Named, n: nat, k: nat)
    requires Numbered(nt, 1, n + 1) && Stores(table, spans, nt, n) && 1 <= k <= n
    ensures LocalSpan(table, spans, n, k)
  {
    SubtreeShape(nt, 1, n + 1, n + 1, k);
    assert StoredAt(table, spans, nt, n, k);
  }

  lemma StoredLeft(table: map<nat, RbNode>, spans: map<nat, Span>, nt: Named, n: nat, k: nat)
    requires Numbered(nt, 1, n + 1) && Stores(table, spans, nt, n) && 1 <= k <= n
    ensures LocalLeft(table, spans, n, k)
  {
    SubtreeShape(nt, 1, n + 1, n + 1, k);
    assert StoredAt(table, spans, nt, n, k);
    var c := table[k].left;
    if c != 0 {
      assert StoredAt(table, spans, nt, n, c);
    }
  }

  lemma StoredRight(table: map<nat, RbNode>, spans: map<nat, Span>, nt: Named, n: nat, k: nat)
    requires Numbered(nt, 1, n + 1) && Stores(table, spans, nt, n) && 1 <= k <= n
    ensures LocalRight(table, spans, n, k)
  {
    SubtreeShape(nt, 1, n + 1, n + 1, k);
    assert StoredAt(table, spans, nt, n, k);
    var c := table[k].right;
    if c != 0 {
      assert StoredAt(table, spans, nt, n, c);
    }
  }

  lemma StoredParent(table: map<nat, RbNode>, spans: map<nat, Span>, nt: Named, n: nat, k: nat)
    requires Numbered(nt, 1, n + 1) && Stores(table, spans, nt, n) && 1 <= k <= n
    ensures LocalParent(table, spans, n, k)
  {
    SubtreeShape(nt, 1, n + 1, n + 1, k);
    assert StoredAt(table, spans, nt, n, k);
    var q := table[k].parent;
    if q != n + 1 {
      assert StoredAt(table, spans, nt, n, q);
    }
  }

  /** Every node a table stores has the local links of a binary search tree. */
  lemma StoredShape(table: map<nat, RbNode>, spans: map<nat, Span>, nt: Named, n: nat, k: nat)
    requires Numbered(nt, 1, n + 1) && Stores(table, spans, nt, n) && 1 <= k <= n
    ensures LocalShape(table, spans, n, k)
  {
    StoredSpan(table, spans, nt, n, k);
    StoredLeft(table, spans, nt, n, k);
    StoredRight(table, spans, nt, n, k);
    StoredParent(table, spans, nt, n, k);
  }

  lemma StoresAreShaped(table: map<nat, RbNode>, spans: map<nat, Span>, nt: Named, n: nat)
    requires Numbered(nt, 1, n + 1) && Stores(table, spans, nt, n)
    ensures forall k :: 1 <= k <= n ==> LocalShape(table, spans, n, k)
  {
    forall k | 1 <= k <= n
      ensures LocalShape(table, spans, n, k)
    {
      StoredShape(table, spans, nt, n, k);
    }
  }

  /** The header links to the first node, the last node and the root. */
  lemma HeaderLinks(tree: Tree)
    ensures NodeCount(tree) + 1 in Table(tree)
    ensures var n := NodeCount(tree); var h := Table(tree)[n + 1];
            n > 0 ==> h.left == 1 && h.right == n && 1 <= h.parent <= n
  {
    assert Table(tree)[NodeCount(tree) + 1] == Header(tree);
  }

  /** The node named `k` in the table carries the `k`-th payload in in-order. */
  lemma NodePayload(tree: Tree, k: nat)
    requires 1 <= k <= NodeCount(tree)
    ensures NodeAt(Number(tree, 1), NodeCount(tree) + 1, k).key == InOrder(tree)[k - 1].key
    ensures NodeAt(Number(tree, 1), NodeCount(tree) + 1, k).val == InOrder(tree)[k - 1].val
  {
    var e := EntryAt(tree, k - 1);
    EntryAtIsInOrder(tree, k - 1);
    assert InOrder(tree)[k - 1] == e;
    NodeAtEntry(tree, 1, NodeCount(tree) + 1, k);
  }

  lemma TablePayload(tree: Tree, k: nat)
    requires 1 <= k <= NodeCount(tree)
    ensures CarriesPayload(Table(tree), InOrder(tree), k)
  {
    NodePayload(tree, k);
    TableAt(tree, k);
  }

  lemma TableIsShaped(tree: Tree)
    ensures forall k :: 1 <= k <= NodeCount(tree) ==> LocalShape(Table(tree), Spans(tree), NodeCount(tree), k)
  {
    NumberIsNumbered(tree, 1);
    TableStores(tree);
    StoresAreShaped(Table(tree), Spans(tree), Number(tree, 1), NodeCount(tree));
  }

  lemma TablePayloads(tree: Tree)
    ensures forall k :: 1 <= k <= NodeCount(tree) ==> CarriesPayload(Table(tree), InOrder(tree), k)
  {
    forall k | 1 <= k <= NodeCount(tree)
      ensures CarriesPayload(Table(tree), InOrder(tree), k)
    {
      TablePayload(tree, k);
    }
  }

  /** The memory of every map is a well laid out node table whose i-th node carries
      the i-th payload in in-order. */
  lemma TableIsWellLaidOut(tree: Tree)
    ensures WellLaidOut(Table(tree), Spans(tree), NodeCount(tree))
    ensures forall k :: 1 <= k <= NodeCount(tree) ==> CarriesPayload(Table(tree), InOrder(tree), k)
  {
    TableIsShaped(tree);
    TablePayloads(tree);
    HeaderLinks(tree);
  }
}
