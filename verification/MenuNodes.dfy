/** Menu nodes as linked objects, and the in-place passes of menu finalization over one
    level of the menu tree. Trees describe how the nodes are linked. */
module MenuNodes {
  import opened Wrappers
  import opened Expressions
  import opened MenuTree

  class MenuNode {
    var props: Props
    var next: MenuNode?
    var list: MenuNode?
    var parent: MenuNode?

    constructor (props: Props, parent: MenuNode?)
      ensures this.props == props && this.parent == parent && next == null && list == null
    {
      this.props, this.parent, next, list := props, parent, null, null;
    }
  }

  type Forest = seq<Tree<MenuNode>>

  function First(ts: Forest, end: MenuNode?): MenuNode? {
    if ts == [] then end else ts[0].node
  }

  ghost function Nodes(ts: Forest): set<MenuNode> {
    if ts == [] then {} else {ts[0].node} + Nodes(ts[0].kids) + Nodes(ts[1..])
  }

  /** No node occurs twice. */
  ghost predicate Distinct(ts: Forest) {
    ts == [] || (
      && ts[0].node !in Nodes(ts[0].kids) && ts[0].node !in Nodes(ts[1..]) && Nodes(ts[0].kids) !! Nodes(ts[1..])
      && Distinct(ts[0].kids) && Distinct(ts[1..]))
  }

  /** The nodes are linked as the trees say: the roots are siblings below 'parent' and are
      followed by 'end'; the children of each node refer to it as their parent. */
  ghost predicate Linked(ts: Forest, parent: MenuNode?, end: MenuNode?)
    reads Nodes(ts)
  {
    ts == [] || (
      && ts[0].node.props == ts[0].props
      && ts[0].node.next == First(ts[1..], end)
      && ts[0].node.list == First(ts[0].kids, null)
      && ts[0].node.parent == parent
      && Linked(ts[0].kids, ts[0].node, null)
      && Linked(ts[1..], parent, end))
  }

  lemma {:induction false} NodesConcat(a: Forest, b: Forest)
    ensures Nodes(a + b) == Nodes(a) + Nodes(b)
  {
    if a == [] {
      assert a + b == b;
    } else {
      assert (a + b)[1..] == a[1..] + b;
      NodesConcat(a[1..], b);
    }
  }

  lemma {:induction false} DistinctConcat(a: Forest, b: Forest)
    ensures Distinct(a + b) <==> Distinct(a) && Distinct(b) && Nodes(a) !! Nodes(b)
  {
    if a == [] {
      assert a + b == b;
    } else {
      assert (a + b)[1..] == a[1..] + b;
      NodesConcat(a[1..], b);
      DistinctConcat(a[1..], b);
    }
  }

  lemma {:induction false} LinkedConcat(a: Forest, b: Forest, parent: MenuNode?, end: MenuNode?)
    ensures Linked(a + b, parent, end) <==> Linked(a, parent, First(b, end)) && Linked(b, parent, end)
  {
    if a == [] {
      assert a + b == b;
    } else {
      assert (a + b)[1..] == a[1..] + b;
      LinkedConcat(a[1..], b, parent, end);
    }
  }

  lemma {:induction false} NodesAllocated(ts: Forest)
    ensures forall o :: o in Nodes(ts) ==> allocated(o)
  {
    if ts == [] {
    } else {
      NodesAllocated(ts[0].kids);
      NodesAllocated(ts[1..]);
    }
  }

  /** Cutting siblings in two. */
  lemma Cut(ts: Forest, i: nat, parent: MenuNode?, end: MenuNode?)
    requires i <= |ts|
    ensures Nodes(ts) == Nodes(ts[..i]) + Nodes(ts[i..])
    ensures Distinct(ts) <==> Distinct(ts[..i]) && Distinct(ts[i..]) && Nodes(ts[..i]) !! Nodes(ts[i..])
    ensures Linked(ts, parent, end) <==> Linked(ts[..i], parent, First(ts[i..], end)) && Linked(ts[i..], parent, end)
  {
    assert ts == ts[..i] + ts[i..];
    NodesConcat(ts[..i], ts[i..]);
    DistinctConcat(ts[..i], ts[i..]);
    LinkedConcat(ts[..i], ts[i..], parent, end);
  }

  lemma {:induction false} PropagatedNodes(ts: Forest, base: Expr, visibleIf: Expr)
    ensures var r := PropagatedAll(ts, base, visibleIf);
            Nodes(r) == Nodes(ts) && (Distinct(r) <==> Distinct(ts)) && forall end :: First(r, end) == First(ts, end)
  {
    hide Propagated, Size;
    if ts == [] {
    } else {
      PropagatedNodes(ts[1..], base, visibleIf);
    }
  }

  lemma {:induction false} PropagatedConcat(a: Forest, b: Forest, base: Expr, visibleIf: Expr)
    ensures PropagatedAll(a + b, base, visibleIf) == PropagatedAll(a, base, visibleIf) + PropagatedAll(b, base, visibleIf)
  {
    if a == [] {
      assert a + b == b;
    } else {
      assert (a + b)[1..] == a[1..] + b;
      PropagatedConcat(a[1..], b, base, visibleIf);
    }
  }

  /** Siblings in two parts, with nodes from 'all': what is done, below one parent, and what is
      to do, below another or the same. */
  ghost predicate Split(done: Forest, doneParent: MenuNode?, todo: Forest, parent: MenuNode?, all: set<MenuNode>)
    reads Nodes(done), Nodes(todo)
  {
    && Linked(done, doneParent, First(todo, null)) && Linked(todo, parent, null)
    && Distinct(done) && Distinct(todo) && Nodes(done) !! Nodes(todo) && Nodes(done) <= all && Nodes(todo) <= all
  }

  lemma AllToDo(ts: Forest, doneParent: MenuNode?, parent: MenuNode?, all: set<MenuNode>)
    requires Linked(ts, parent, null) && Distinct(ts) && Nodes(ts) <= all
    ensures Split([], doneParent, ts, parent, all)
  {
  }

  lemma SplitLinked(done: Forest, doneParent: MenuNode?, todo: Forest, parent: MenuNode?, all: set<MenuNode>)
    requires Split(done, doneParent, todo, parent, all)
    ensures Linked(done, doneParent, First(todo, null)) && Linked(todo, parent, null) && Distinct(done) && Distinct(todo)
    ensures Nodes(done) !! Nodes(todo) && Nodes(done) <= all && Nodes(todo) <= all
  {
  }

  /** The first of several siblings: its links, what is below it, and what follows it. */
  lemma OpenFirst(ts: Forest, parent: MenuNode?)
    requires Linked(ts, parent, null) && Distinct(ts) && ts != []
    ensures var t, rest := ts[0], ts[1..];
            && t.node.props == t.props && t.node.list == First(t.kids, null) && Linked(t.kids, t.node, null)
            && t.node.parent == parent && t.node.next == First(rest, null) && Linked(rest, parent, null)
            && Distinct(t.kids) && Distinct(rest)
            && t.node !in Nodes(t.kids) && t.node !in Nodes(rest) && Nodes(t.kids) !! Nodes(rest)
            && Nodes(ts) == {t.node} + Nodes(t.kids) + Nodes(rest)
  {
  }

  lemma Open(done: Forest, doneParent: MenuNode?, todo: Forest, parent: MenuNode?, all: set<MenuNode>)
    requires Split(done, doneParent, todo, parent, all) && todo != []
    ensures var t, rest := todo[0], todo[1..];
            && t.node.props == t.props && t.node.list == First(t.kids, null) && Linked(t.kids, t.node, null)
            && t.node.parent == parent && t.node.next == First(rest, null) && Linked(rest, parent, null)
            && Linked(done, doneParent, t.node) && Apart(done, t, rest, all)
  {
    OpenFirst(todo, parent);
  }

  /** A node between those that are done and those that follow it. */
  ghost predicate Apart(done: Forest, t: Tree<MenuNode>, rest: Forest, all: set<MenuNode>) {
    && Distinct(done) && Distinct(t.kids) && Distinct(rest)
    && t.node !in Nodes(done) && t.node !in Nodes(t.kids) && t.node !in Nodes(rest)
    && Nodes(done) !! Nodes(t.kids) && Nodes(done) !! Nodes(rest) && Nodes(t.kids) !! Nodes(rest)
    && t.node in all && Nodes(done) <= all && Nodes(t.kids) <= all && Nodes(rest) <= all
  }

  /** The opposite of Open: the node is done now. */
  lemma Advance(done: Forest, t: Tree<MenuNode>, rest: Forest, doneParent: MenuNode?, parent: MenuNode?, all: set<MenuNode>)
    requires t.node.props == t.props && t.node.list == First(t.kids, null) && Linked(t.kids, t.node, null)
    requires t.node.parent == doneParent && t.node.next == First(rest, null) && Linked(rest, parent, null)
    requires Linked(done, doneParent, t.node) && Apart(done, t, rest, all)
    ensures Split(done + [t], doneParent, rest, parent, all)
  {
    Append(done, t, doneParent);
  }

  lemma Append(done: Forest, t: Tree<MenuNode>, parent: MenuNode?)
    requires t.node.props == t.props && t.node.list == First(t.kids, null) && Linked(t.kids, t.node, null)
    requires t.node.parent == parent && Linked(done, parent, t.node)
    requires Distinct(done) && Distinct(t.kids) && t.node !in Nodes(t.kids) && Nodes(done) !! {t.node} + Nodes(t.kids)
    ensures Linked(done + [t], parent, t.node.next) && Distinct(done + [t])
    ensures Nodes(done + [t]) == Nodes(done) + {t.node} + Nodes(t.kids)
  {
    LinkedConcat(done, [t], parent, t.node.next);
    DistinctConcat(done, [t]);
    NodesConcat(done, [t]);
  }

  /** _propagate_deps() */
  method PropagateDeps(node: MenuNode, visibleIf: Expr, ghost ts: Forest)
    requires Linked(ts, node, null) && Distinct(ts) && node !in Nodes(ts) && node.list == First(ts, null)
    modifies Nodes(ts)
    ensures Linked(PropagatedAll(ts, BaseDep(node.props), visibleIf), node, null)
  {
    hide Linked, Nodes, Distinct, Split, Propagated, PropagatedAll;
    var basedep := BaseDep(node.props);
    var cur := node.list;
    ghost var done: Forest, todo, all := [], ts, Nodes(ts);
    AllToDo(ts, node, node, all);
    while cur != null
      invariant cur == First(todo, null) && Split(done, node, todo, node, all)
      invariant done + PropagatedAll(todo, basedep, visibleIf) == PropagatedAll(ts, basedep, visibleIf)
      decreases |todo|
    {
      ghost var t, rest := todo[0].(props := Propagated(todo[0].props, basedep, visibleIf)), todo[1..];
      Open(done, node, todo, node, all);
      cur.props := Propagated(cur.props, basedep, visibleIf);
      Advance(done, t, rest, node, node, all);
      PropagatedFirst(todo, basedep, visibleIf);
      Shift(done, t, PropagatedAll(rest, basedep, visibleIf));
      done, todo := done + [t], rest;
      cur := cur.next;
    }
    SplitLinked(done, node, [], node, all);
    assert done == PropagatedAll(ts, basedep, visibleIf) by { PropagatedNone(basedep, visibleIf); }
  }

  lemma Shift(a: Forest, t: Tree<MenuNode>, b: Forest)
    ensures a + ([t] + b) == (a + [t]) + b
  {
  }

  lemma PropagatedFirst(ts: Forest, base: Expr, visibleIf: Expr)
    requires ts != []
    ensures PropagatedAll(ts, base, visibleIf) ==
            [ts[0].(props := Propagated(ts[0].props, base, visibleIf))] + PropagatedAll(ts[1..], base, visibleIf)
  {
  }

  lemma PropagatedNone(base: Expr, visibleIf: Expr)
    ensures PropagatedAll<MenuNode>([], base, visibleIf) == []
  {
  }

  // Flattening

  /** _flatten(), for the node and its next siblings. */
  method FlattenLevel(first: MenuNode, ghost ts: Forest, ghost parent: MenuNode?)
    requires Linked(ts, parent, null) && Distinct(ts) && ts != [] && first == ts[0].node
    modifies Nodes(ts)
    ensures Linked(Flatten(ts), parent, null) && Distinct(Flatten(ts)) && Nodes(Flatten(ts)) <= Nodes(ts)
    ensures First(Flatten(ts), null) == first
  {
    hide Linked, Nodes, Distinct, Split, Flatten;
    var node: MenuNode? := first;
    ghost var done: Forest, todo, all := [], ts, Nodes(ts);
    AllToDo(ts, parent, parent, all);
    while node != null
      invariant node == First(todo, null) && Split(done, parent, todo, parent, all)
      invariant done + Flatten(todo) == Flatten(ts) && First(done + todo, null) == first
      decreases Size(todo)
    {
      ghost var t, rest := todo[0], todo[1..];
      Open(done, parent, todo, parent, all);
      FlattenFirst(todo);
      if node.list != null && Flattened(node.props) {
        NodesAllocated(done);
        LiftChildren(node, t.kids, rest, parent);
        LiftedApart(done, t, rest, all);
        NoNodes();
        t, rest := t.(kids := []), t.kids + rest;
      }
      Advance(done, t, rest, parent, parent, all);
      Shift(done, t, Flatten(rest));
      done, todo := done + [t], rest;
      node := node.next;
    }
    SplitLinked(done, parent, [], parent, all);
    assert done == Flatten(ts) by { FlattenNone(); }
  }

  lemma LiftedApart(done: Forest, t: Tree<MenuNode>, rest: Forest, all: set<MenuNode>)
    requires Apart(done, t, rest, all)
    ensures Apart(done, t.(kids := []), t.kids + rest, all)
  {
    NodesConcat(t.kids, rest);
    DistinctConcat(t.kids, rest);
  }

  lemma NoNodes()
    ensures Nodes([]) == {} && Distinct([]) && forall parent: MenuNode?, end: MenuNode? :: Linked([], parent, end)
  {
  }

  lemma FlattenNone()
    ensures Flatten<MenuNode>([]) == []
  {
  }

  lemma FlattenFirst(ts: Forest)
    requires ts != []
    ensures if ts[0].kids != [] && Flattened(ts[0].props)
            then Flatten(ts) == [ts[0].(kids := [])] + Flatten(ts[0].kids + ts[1..]) && Size(ts[0].kids + ts[1..]) < Size(ts)
            else Flatten(ts) == [ts[0]] + Flatten(ts[1..]) && Size(ts[1..]) < Size(ts)
  {
    SizeConcat(ts[0].kids, ts[1..]);
  }

  /** The last of several siblings: its links, what is below it, and what comes before it. */
  lemma {:induction false} LastLinked(ts: Forest, parent: MenuNode?, end: MenuNode?)
    requires Linked(ts, parent, end) && Distinct(ts) && ts != []
    ensures var n := |ts| - 1; var t := ts[n];
            && t.node.props == t.props && t.node.list == First(t.kids, null) && Linked(t.kids, t.node, null)
            && t.node.parent == parent && t.node.next == end && Linked(ts[..n], parent, t.node)
            && Apart(ts[..n], t, [], Nodes(ts))
  {
    var n := |ts| - 1;
    Cut(ts, n, parent, end);
    assert ts[n..] == [ts[n]];
  }

  /** The children of a node become its next siblings. */
  method LiftChildren(node: MenuNode, ghost kids: Forest, ghost rest: Forest, ghost parent: MenuNode?)
    requires node.list == First(kids, null) && node.next == First(rest, null) && node.parent == parent && kids != []
    requires Linked(kids, node, null) && Distinct(kids) && Linked(rest, parent, null)
    requires node !in Nodes(kids) && node !in Nodes(rest) && Nodes(kids) !! Nodes(rest)
    modifies {node} + Nodes(kids)
    ensures node.next == First(kids, null) && node.list == null
    ensures node.props == old(node.props) && node.parent == parent
    ensures Linked(kids + rest, parent, null)
  {
    hide Linked, Nodes, Distinct;
    NodesAllocated(rest);
    var lastNode := AdoptChildren(node, kids, parent);
    ghost var n := |kids| - 1;
    LastLinked(kids, parent, null);
    lastNode.next := node.next;
    Append(kids[..n], kids[n], parent);
    assert kids[..n] + [kids[n]] == kids;
    node.next := node.list;
    node.list := null;
    LinkedConcat(kids, rest, parent, null);
  }

  lemma ShiftFirst(done: Forest, todo: Forest)
    requires todo != []
    ensures done + todo == (done + [todo[0]]) + todo[1..]
  {
  }

  lemma FirstInAll(done: Forest, doneParent: MenuNode?, todo: Forest, parent: MenuNode?, all: set<MenuNode>)
    requires Split(done, doneParent, todo, parent, all) && todo != []
    ensures todo[0].node in all
  {
  }

  /** One child more becomes a child of the parent of 'node'. */
  method Adopt(child: MenuNode, node: MenuNode, ghost done: Forest, ghost todo: Forest, ghost parent: MenuNode?,
      ghost all: set<MenuNode>)
    requires Split(done, parent, todo, node, all) && todo != [] && child == todo[0].node
    requires node.parent == parent && node !in all
    modifies child`parent
    ensures Split(done + [todo[0]], parent, todo[1..], node, all) && child in all
    ensures child.next == First(todo[1..], null) && node.parent == parent
  {
    hide Linked, Nodes, Distinct, Split;
    Open(done, parent, todo, node, all);
    child.parent := node.parent;
    Advance(done, todo[0], todo[1..], parent, node, all);
  }

  /** The loop over the children of a node that makes them children of its parent. It ends
      at the last child, whose next sibling is about to change. */
  method AdoptChildren(node: MenuNode, ghost kids: Forest, ghost parent: MenuNode?) returns (lastNode: MenuNode)
    requires node.list == First(kids, null) && node.parent == parent && kids != []
    requires Linked(kids, node, null) && Distinct(kids) && node !in Nodes(kids)
    modifies Nodes(kids)`parent
    ensures Linked(kids, parent, null) && lastNode == kids[|kids| - 1].node
  {
    hide Linked, Nodes, Distinct, Split, Apart;
    lastNode := node.list;
    ghost var done: Forest, todo, all := [], kids, Nodes(kids);
    AllToDo(kids, parent, node, all);
    while true
      invariant todo != [] && lastNode == todo[0].node && done + todo == kids
      invariant Split(done, parent, todo, node, all) && node.parent == parent
      decreases |todo|
    {
      FirstInAll(done, parent, todo, node, all);
      Adopt(lastNode, node, done, todo, parent, all);
      ShiftFirst(done, todo);
      done, todo := done + [todo[0]], todo[1..];
      if lastNode.next == null { break; }
      lastNode := lastNode.next;
    }
    assert done == kids;
    SplitLinked(done, parent, [], node, all);
  }

  // Removing 'if' nodes

  /** The nodes from the first one on that is not an 'if'. */
  function AfterIfs(ts: Forest): Forest {
    if ts == [] || !ts[0].props.item.If? then ts else AfterIfs(ts[1..])
  }

  method SkipIfs(first: MenuNode?, ghost ts: Forest, ghost parent: MenuNode?)
    returns (cur: MenuNode?, ghost rest: Forest)
    requires first == First(ts, null) && Linked(ts, parent, null) && Distinct(ts)
    ensures cur == First(AfterIfs(ts), null) && rest == AfterIfs(ts) && |rest| <= |ts|
    ensures Linked(rest, parent, null) && Distinct(rest) && Nodes(rest) <= Nodes(ts)
    ensures RemoveIfs(rest) == RemoveIfs(ts) && (rest != [] ==> !rest[0].props.item.If?)
  {
    hide Linked, Nodes, Distinct;
    cur, rest := first, ts;
    while cur != null && cur.props.item.If?
      invariant cur == First(rest, null) && Linked(rest, parent, null) && Distinct(rest) && Nodes(rest) <= Nodes(ts)
      invariant RemoveIfs(rest) == RemoveIfs(ts) && AfterIfs(rest) == AfterIfs(ts) && |rest| <= |ts|
      decreases |rest|
    {
      OpenFirst(rest, parent);
      cur, rest := cur.next, rest[1..];
    }
    if rest != [] { OpenFirst(rest, parent); }
  }

  /** _remove_ifs() */
  method RemoveIfsLevel(node: MenuNode, ghost ts: Forest)
    requires node.list == First(ts, null) && Linked(ts, node, null) && Distinct(ts) && node !in Nodes(ts)
    modifies node`list, Nodes(ts)`next
    ensures var r := RemoveIfs(ts);
            node.list == First(r, null) && Linked(r, node, null) && Distinct(r) && Nodes(r) <= Nodes(ts)
  {
    hide Linked, Nodes, Distinct, Split, RemoveIfs;
    ghost var done: Forest, todo, all := [], ts, Nodes(ts);
    var cur: MenuNode?;
    cur, todo := SkipIfs(node.list, ts, node);
    node.list := cur;
    AllToDo(todo, node, node, all);
    while cur != null
      invariant cur == First(todo, null) && Split(done, node, todo, node, all)
      invariant todo != [] ==> !todo[0].props.item.If?
      invariant done + RemoveIfs(todo) == RemoveIfs(ts) && node.list == First(done + todo, null)
      decreases |todo|
    {
      ghost var t, rest := todo[0], todo[1..];
      Open(done, node, todo, node, all);
      RemoveIfsFirst(todo);
      NodesAllocated(done);
      NodesAllocated(t.kids);
      var next;
      next, rest := SkipIfs(cur.next, rest, node);
      cur.next := next;
      Advance(done, t, rest, node, node, all);
      Shift(done, t, RemoveIfs(rest));
      done, todo := done + [t], rest;
      cur := next;
    }
    SplitLinked(done, node, [], node, all);
    assert done == RemoveIfs(ts) by { RemoveIfsNone(); }
  }

  lemma RemoveIfsNone()
    ensures RemoveIfs<MenuNode>([]) == []
  {
  }

  lemma RemoveIfsFirst(ts: Forest)
    requires ts != [] && !ts[0].props.item.If?
    ensures RemoveIfs(ts) == [ts[0]] + RemoveIfs(ts[1..])
  {
  }

  /** The last steps for the children of a node: _flatten() and _remove_ifs(). */
  method FinishLevel(node: MenuNode, ghost kids: Forest)
    requires node.list == First(kids, null) && Linked(kids, node, null) && Distinct(kids) && node !in Nodes(kids)
    modifies node`list, Nodes(kids)
    ensures var r := CleanLevel(kids);
            node.list == First(r, null) && Linked(r, node, null) && Distinct(r) && Nodes(r) <= Nodes(kids)
  {
    hide Linked, Nodes, Distinct, Flatten, RemoveIfs;
    FlattenNone();
    RemoveIfsNone();
    NoNodes();
    if node.list != null {
      FlattenLevel(node.list, kids, node);
      RemoveIfsLevel(node, Flatten(kids));
    }
  }
}
