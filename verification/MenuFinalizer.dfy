/** Menu finalization in place, proved against its description as a function on trees. */
module MenuFinalizer {
  import opened Wrappers
  import opened Expressions
  import opened MenuTree
  import opened MenuNodes
  import opened Collection
  import opened ChoiceTypes
  import opened MenuOrder
  import opened Propagation

  /** The linked nodes after finalization of the first of the given siblings. */
  ghost function Finalized(ts: Forest, visibleIf: Expr): Forest
    requires ts != []
  {
    var f := Finalize(ts[0], ts[1..], visibleIf);
    [f.tree] + ts[1 + f.taken..]
  }

  lemma NextMember(found: seq<nat>, todo: Forest, owners: seq<Option<nat>>, c: nat)
    requires todo != []
    ensures var p, before := todo[0].props, SetOwners(owners, found, c);
            if p.item.SymNode? then
              && found + Members(todo) == (found + [p.item.s]) + Members(todo[1..])
              && SetOwners(owners, found + [p.item.s], c)
                 == if p.item.s < |owners| then before[p.item.s := Some(c)] else before
            else Members(todo) == Members(todo[1..])
  {
    hide Size;
    if todo[0].props.item.SymNode? {
      var s := todo[0].props.item.s;
      assert (found + [s])[..|found|] == found && (found + [s])[|found|] == s;
      assert found + ([s] + Members(todo[1..])) == (found + [s]) + Members(todo[1..]);
    } else {
      assert Members(todo) == [] + Members(todo[1..]);
    }
  }

  lemma NoMembers(owners: seq<Option<nat>>, c: nat)
    ensures Members<MenuNode>([]) == [] && SetOwners(owners, [], c) == owners
  {
  }

  lemma SizeOf(ts: Forest)
    requires ts != []
    ensures Size(ts) == 1 + Size(ts[0].kids) + Size(ts[1..])
  {
  }

  lemma CloseFirst(t: Tree<MenuNode>, rest: Forest, parent: MenuNode?)
    requires t.node.props == t.props && t.node.list == First(t.kids, null) && Linked(t.kids, t.node, null)
    requires t.node.parent == parent && t.node.next == First(rest, null) && Linked(rest, parent, null)
    requires Distinct(t.kids) && Distinct(rest)
    requires t.node !in Nodes(t.kids) && t.node !in Nodes(rest) && Nodes(t.kids) !! Nodes(rest)
    ensures Linked([t] + rest, parent, null) && Distinct([t] + rest)
    ensures Nodes([t] + rest) == {t.node} + Nodes(t.kids) + Nodes(rest)
  {
    assert ([t] + rest)[1..] == rest;
  }

  lemma OneAdded(all: seq<SymProps>, t: Tree<MenuNode>)
    ensures AddAll(all, [Entry(t.node, t.props)]) == AddProps(all, t.props)
  {
    assert [Entry(t.node, t.props)][..0] == [];
  }

  lemma FinalizedSymbol(t: Tree<MenuNode>, rest: Forest, visibleIf: Expr)
    requires t.props.item.SymNode?
    ensures var f, l := Finalize(t, rest, visibleIf), TakeSubmenu(t.props.item.s, rest, visibleIf);
            && f.tree.kids == CleanLevel(if l.taken == 0 then t.kids else l.kids) && f.taken == l.taken
            && f.order != [] && f.order[0] == Entry(t.node, t.props) && f.order[1..] == l.order && f.choices == l.choices
  {
    hide TakeSubmenu, CleanLevel;
  }

  // The loop of TakeSubmenu

  ghost predicate TakenSoFar(s: nat, rest: Forest, visibleIf: Expr, done: Forest, todo: Forest,
                             order: seq<Entry<MenuNode>>, choices: seq<ChoiceEntry>)
  {
    var all, more := TakeSubmenu(s, rest, visibleIf), TakeSubmenu(s, todo, visibleIf);
    && |todo| <= |rest| && todo == rest[|rest| - |todo|..] && all.taken == |rest| - |todo| + more.taken
    && all.kids == done + more.kids && all.order == order + more.order && all.choices == choices + more.choices
  }

  lemma NothingTaken(s: nat, rest: Forest, visibleIf: Expr, syms: seq<SymProps>, members: Membership)
    ensures TakenSoFar(s, rest, visibleIf, [], rest, [], [])
    ensures AddAll<MenuNode>(syms, []) == syms && CloseAll(members, []) == members
  {
  }

  lemma SuffixOf(rest: Forest, todo: Forest, n: nat)
    requires |todo| <= |rest| && todo == rest[|rest| - |todo|..] && n <= |todo|
    ensures todo[n..] == rest[|rest| - |todo[n..]|..]
  {
  }

  lemma MoreTaken(s: nat, rest: Forest, visibleIf: Expr, done: Forest, todo: Forest,
                  order: seq<Entry<MenuNode>>, choices: seq<ChoiceEntry>)
    requires TakenSoFar(s, rest, visibleIf, done, todo, order, choices)
    requires todo != [] && AutoMenuDep(s, todo[0].props)
    ensures var f := Finalize(todo[0], todo[1..], visibleIf);
            var later := todo[1 + f.taken..];
            && TakenSoFar(s, rest, visibleIf, done + [f.tree], later, order + f.order, choices + f.choices)
            && Size(later) < Size(todo)
  {
    hide TakeSubmenu, Finalize, Size, AutoMenuDep;
    var f := Finalize(todo[0], todo[1..], visibleIf);
    var l := TakeSubmenu(s, todo[1 + f.taken..], visibleIf);
    TakeSubmenuStep(s, todo, visibleIf);
    RestIsSmaller(todo, f.taken);
    SuffixOf(rest, todo, 1 + f.taken);
    Shift(done, f.tree, l.kids);
    assert order + (f.order + l.order) == (order + f.order) + l.order;
    assert choices + (f.choices + l.choices) == (choices + f.choices) + l.choices;
  }

  lemma AllTaken(s: nat, rest: Forest, visibleIf: Expr, done: Forest, todo: Forest,
                 order: seq<Entry<MenuNode>>, choices: seq<ChoiceEntry>)
    requires TakenSoFar(s, rest, visibleIf, done, todo, order, choices)
    requires todo == [] || !AutoMenuDep(s, todo[0].props)
    ensures var l := TakeSubmenu(s, rest, visibleIf);
            l.kids == done && l.order == order && l.choices == choices && rest[l.taken..] == todo
  {
  }

  lemma LastIn(ts: Forest)
    ensures ts != [] ==> ts[|ts| - 1].node in Nodes(ts)
  {
    if ts != [] {
      assert ts == ts[..|ts| - 1] + [ts[|ts| - 1]];
      NodesConcat(ts[..|ts| - 1], [ts[|ts| - 1]]);
    }
  }

  lemma NothingFinalized(visibleIf: Expr, syms: seq<SymProps>, members: Membership)
    ensures FinalizeAll<MenuNode>([], visibleIf) == Level([], 0, [], [])
    ensures AddAll<MenuNode>(syms, []) == syms && CloseAll(members, []) == members
  {
  }

  // The loop of FinalizeAll

  ghost predicate FinalizedSoFar(ts: Forest, visibleIf: Expr, done: Forest, todo: Forest,
                                 order: seq<Entry<MenuNode>>, choices: seq<ChoiceEntry>)
  {
    var all, more := FinalizeAll(ts, visibleIf), FinalizeAll(todo, visibleIf);
    all.kids == done + more.kids && all.order == order + more.order && all.choices == choices + more.choices
  }

  lemma NothingDone(ts: Forest, visibleIf: Expr, syms: seq<SymProps>, members: Membership)
    ensures FinalizedSoFar(ts, visibleIf, [], ts, [], [])
    ensures AddAll<MenuNode>(syms, []) == syms && CloseAll(members, []) == members
  {
  }

  lemma MoreDone(ts: Forest, visibleIf: Expr, done: Forest, todo: Forest,
                 order: seq<Entry<MenuNode>>, choices: seq<ChoiceEntry>)
    requires FinalizedSoFar(ts, visibleIf, done, todo, order, choices) && todo != []
    ensures var f := Finalize(todo[0], todo[1..], visibleIf);
            var later := todo[1 + f.taken..];
            && FinalizedSoFar(ts, visibleIf, done + [f.tree], later, order + f.order, choices + f.choices)
            && Size(later) < Size(todo)
  {
    hide FinalizeAll, Finalize, Size;
    var f := Finalize(todo[0], todo[1..], visibleIf);
    var l := FinalizeAll(todo[1 + f.taken..], visibleIf);
    FinalizeAllStep(todo, visibleIf);
    RestIsSmaller(todo, f.taken);
    Shift(done, f.tree, l.kids);
    assert order + (f.order + l.order) == (order + f.order) + l.order;
    assert choices + (f.choices + l.choices) == (choices + f.choices) + l.choices;
  }

  lemma AllFinalized(ts: Forest, visibleIf: Expr, done: Forest, order: seq<Entry<MenuNode>>, choices: seq<ChoiceEntry>)
    requires FinalizedSoFar(ts, visibleIf, done, [], order, choices)
    ensures var l := FinalizeAll(ts, visibleIf);
            l.kids == done && l.order == order && l.choices == choices
  {
  }

  /** Finalization of the first sibling to do keeps the siblings apart from what is done. */
  lemma SplitAgain(done: Forest, doneParent: MenuNode?, todo: Forest, todo': Forest, parent: MenuNode?, all: set<MenuNode>)
    requires Linked(done, doneParent, First(todo', null)) && Linked(todo', parent, null) && Distinct(done) && Distinct(todo')
    requires Nodes(done) !! Nodes(todo) && Nodes(done) <= all && Nodes(todo) <= all && Nodes(todo') <= Nodes(todo)
    ensures Split(done, doneParent, todo', parent, all)
  {
  }

  /** The tables that finalization fills in. They have an entry for every defined symbol
      and for every choice. */
  class Finalizer {
    var syms: seq<SymProps>
    var members: Membership

    constructor (syms: seq<SymProps>, members: Membership)
      ensures this.syms == syms && this.members == members
    {
      this.syms, this.members := syms, members;
    }

    /** _add_props_to_sym() */
    method AddPropsToSym(node: MenuNode)
      requires node.props.item.SymNode?
      modifies `syms
      ensures syms == AddProps(old(syms), node.props)
    {
      var p, s := node.props, node.props.item.s;
      if s >= |syms| { return; }
      var d := syms[s];
      syms := syms[s := d.(
        directDep := MakeOr(d.directDep, p.dep),
        defaults := d.defaults + p.defaults,
        ranges := d.ranges + p.ranges,
        selects := d.selects + p.selects,
        implies := d.implies + p.implies)];
      ghost var own := syms;
      for i := 0 to |p.selects|
        invariant syms == AddRevs(own, s, p.selects[..i])
      {
        var Select(target, cond) := p.selects[i];
        assert p.selects[..i + 1][..i] == p.selects[..i];
        if target < |syms| {
          syms := syms[target := syms[target].(
            revDep := MakeOr(syms[target].revDep, MakeAnd(Leaf(Sym(s)), cond)))];
        }
      }
      assert p.selects[..|p.selects|] == p.selects;
      ghost var selected := syms;
      for i := 0 to |p.implies|
        invariant syms == AddWeakRevs(selected, s, p.implies[..i])
      {
        var Select(target, cond) := p.implies[i];
        assert p.implies[..i + 1][..i] == p.implies[..i];
        if target < |syms| {
          syms := syms[target := syms[target].(
            weakRevDep := MakeOr(syms[target].weakRevDep, MakeAnd(Leaf(Sym(s)), cond)))];
        }
      }
      assert p.implies[..|p.implies|] == p.implies;
    }

    /** The first loop of _finalize_choice(). */
    method MarkMembers(node: MenuNode, c: nat, ghost kids: Forest) returns (owners: seq<Option<nat>>, found: seq<nat>)
      requires node.list == First(kids, null) && Linked(kids, node, null) && Distinct(kids)
      ensures found == Members(kids) && owners == SetOwners(members.owners, found, c)
    {
      hide Linked, Distinct, Nodes, SetOwners, Members;
      owners, found := members.owners, [];
      NoMembers(owners, c);
      var cur := node.list;
      ghost var todo := kids;
      while cur != null
        invariant cur == First(todo, null) && Linked(todo, node, null) && Distinct(todo)
        invariant found + Members(todo) == Members(kids) && owners == SetOwners(members.owners, found, c)
        decreases |todo|
      {
        OpenFirst(todo, node);
        NextMember(found, todo, members.owners, c);
        if cur.props.item.SymNode? {
          var s := cur.props.item.s;
          if s < |owners| { owners := owners[s := Some(c)]; }
          found := found + [s];
        }
        cur, todo := cur.next, todo[1..];
      }
    }

    /** The last two loops of _finalize_choice(). */
    method InferTypes(declared: Ty, syms: seq<nat>) returns (ty: Ty, types: seq<Ty>)
      ensures ty == if declared.Unknown? then FirstKnown(members.types, syms) else declared
      ensures types == FillTypes(members.types, syms, ty)
    {
      ty, types := declared, members.types;
      if ty.Unknown? {
        var i := 0;
        while i < |syms| && TypeOf(types, syms[i]).Unknown?
          invariant 0 <= i <= |syms| && FirstKnown(types, syms) == FirstKnown(types, syms[i..])
        {
          assert syms[i..][1..] == syms[i + 1..];
          i := i + 1;
        }
        if i < |syms| { ty := TypeOf(types, syms[i]); }
      }
      for i := 0 to |syms|
        invariant types == FillTypes(members.types, syms[..i], ty)
      {
        assert syms[..i + 1][..i] == syms[..i];
        var s := syms[i];
        if s < |types| && types[s].Unknown? { types := types[s := ty]; }
      }
      assert syms[..|syms|] == syms;
    }

    /** The end of _finalize_node() for a choice, with _finalize_choice(). */
    method FinalizeChoice(node: MenuNode, ghost kids: Forest)
      requires node.props.item.ChoiceNode?
      requires node.list == First(kids, null) && Linked(kids, node, null) && Distinct(kids)
      modifies `members
      ensures members == CloseAll(old(members), ClosedChoice(node.props, kids))
    {
      hide Linked, Distinct;
      var p, c := node.props, node.props.item.c;
      assert ClosedChoice(p, kids) == [ChoiceEntry(c, p.dep, p.defaults, Members(kids))];
      assert CloseAll(members, ClosedChoice(p, kids)[..0]) == members;
      if c >= |members.choices| { return; }
      var ch := members.choices[c];
      var owners, found := MarkMembers(node, c, kids);
      var syms := ch.syms + found;
      var ty, types := InferTypes(ch.ty, syms);
      members := Membership(types, owners, members.choices[
        c := ChoiceProps(ty, MakeOr(ch.directDep, p.dep), ch.defaults + p.defaults, syms)]);
    }

    /** The symbol case of _finalize_node(), after its first step. */
    method FinalizeSymbol(node: MenuNode, visibleIf: Expr, ghost t: Tree<MenuNode>, ghost rest: Forest,
                          ghost parent: MenuNode?)
      requires node == t.node && t.props.item.SymNode?
      requires t.node.props == t.props && t.node.list == First(t.kids, null) && Linked(t.kids, t.node, null)
      requires t.node.parent == parent && t.node.next == First(rest, null) && Linked(rest, parent, null)
      requires Distinct(t.kids) && Distinct(rest)
      requires t.node !in Nodes(t.kids) && t.node !in Nodes(rest) && Nodes(t.kids) !! Nodes(rest)
      modifies this, node`list, node`next, Nodes(t.kids), Nodes(rest)
      ensures var f := Finalize(t, rest, visibleIf);
              var later := rest[f.taken..];
              && node.list == First(f.tree.kids, null) && Linked(f.tree.kids, node, null)
              && node.next == First(later, null) && Linked(later, parent, null)
              && Distinct(f.tree.kids) && Distinct(later) && Nodes(f.tree.kids) !! Nodes(later)
              && Nodes(f.tree.kids) <= Nodes(t.kids) + Nodes(rest) && Nodes(later) <= Nodes(rest)
              && f.order != [] && f.order[0] == Entry(node, t.props)
              && syms == AddAll(old(syms), f.order[1..]) && members == CloseAll(old(members), f.choices)
      decreases Size(t.kids) + Size(rest), 4
    {
      hide Linked, Distinct, Nodes, AddAll, CloseAll, TakeSubmenu, CleanLevel, Size, Finalize;
      ghost var l := TakeSubmenu(t.props.item.s, rest, visibleIf);
      FinalizedSymbol(t, rest, visibleIf);
      ghost var kids := t.kids;
      NodesAllocated(t.kids);
      var cur := TakeItems(node, visibleIf, rest, parent);
      if cur != node {
        kids := l.kids;
        LastIn(kids);
        TakeOver(node, cur, kids, rest[l.taken..], parent);
      }
      NodesAllocated(rest[l.taken..]);
      FinishLevel(node, kids);
    }

    /** The next siblings up to 'cur' become the children of the node. */
    static method TakeOver(node: MenuNode, cur: MenuNode, ghost kids: Forest, ghost later: Forest, ghost parent: MenuNode?)
      requires kids != [] && cur == kids[|kids| - 1].node && node.next == kids[0].node && cur.next == First(later, null)
      requires Linked(kids, node, First(later, null)) && Linked(later, parent, null)
      requires Distinct(kids) && Nodes(kids) !! Nodes(later) && node !in Nodes(kids) && node !in Nodes(later)
      modifies node`list, node`next, cur`next
      ensures node.list == First(kids, null) && node.next == First(later, null)
      ensures Linked(kids, node, null) && Linked(later, parent, null)
    {
      hide Linked, Distinct, Nodes;
      LastIn(kids);
      NodesAllocated(later);
      node.list := node.next;
      node.next := cur.next;
      CutAfter(cur, kids, node, First(later, null));
    }

    /** 'cur' becomes the last of its siblings. */
    static method CutAfter(cur: MenuNode, ghost kids: Forest, ghost parent: MenuNode?, ghost end: MenuNode?)
      requires Linked(kids, parent, end) && Distinct(kids) && kids != [] && cur == kids[|kids| - 1].node
      modifies cur`next
      ensures cur.next == null && Linked(kids, parent, null)
    {
      hide Linked, Distinct, Nodes;
      LastLinked(kids, parent, end);
      cur.next := null;
      Append(kids[..|kids| - 1], kids[|kids| - 1], parent);
      assert kids[..|kids| - 1] + [kids[|kids| - 1]] == kids;
    }

    /** The search for items of the implicit submenu of a symbol. */
    method TakeItems(node: MenuNode, visibleIf: Expr, ghost rest: Forest, ghost parent: MenuNode?) returns (cur: MenuNode)
      requires node.props.item.SymNode? && node.next == First(rest, null) && node !in Nodes(rest)
      requires Linked(rest, parent, null) && Distinct(rest)
      modifies this, Nodes(rest)
      ensures var l := TakeSubmenu(node.props.item.s, rest, visibleIf);
              var later := rest[l.taken..];
              && cur == (if l.kids == [] then node else l.kids[|l.kids| - 1].node) && cur.next == First(later, null)
              && (l.kids != [] ==> cur != node && node.next == l.kids[0].node)
              && Linked(l.kids, node, First(later, null)) && Linked(later, parent, null)
              && Distinct(l.kids) && Distinct(later) && Nodes(l.kids) !! Nodes(later)
              && Nodes(l.kids) <= Nodes(rest) && Nodes(later) <= Nodes(rest)
              && syms == AddAll(old(syms), l.order) && members == CloseAll(old(members), l.choices)
      decreases Size(rest), 3
    {
      hide Linked, Distinct, Nodes, AddAll, CloseAll, TakeSubmenu, Size, AutoMenuDep, TakenSoFar, Split, Finalize;
      cur := node;
      ghost var s, done: Forest, todo, order, choices := node.props.item.s, [], rest, [], [];
      ghost var all := Nodes(rest);
      NothingTaken(s, rest, visibleIf, syms, members);
      AllToDo(rest, node, parent, all);
      while cur.next != null && AutoMenuDep(node.props.item.s, cur.next.props)
        invariant TakenSoFar(s, rest, visibleIf, done, todo, order, choices)
        invariant cur == (if done == [] then node else done[|done| - 1].node) && cur.next == First(todo, null)
        invariant done != [] ==> cur in all && node.next == done[0].node
        invariant Split(done, node, todo, parent, all)
        invariant syms == AddAll(old(syms), order) && members == CloseAll(old(members), choices)
        invariant Size(todo) <= Size(rest)
        decreases Size(todo)
      {
        SplitLinked(done, node, todo, parent, all);
        OpenFirst(todo, parent);
        ghost var f := Finalize(todo[0], todo[1..], visibleIf);
        MoreTaken(s, rest, visibleIf, done, todo, order, choices);
        cur := cur.next;
        TakeItem(node, cur, visibleIf, done, todo, parent, all);
        AddAllConcat(old(syms), order, f.order);
        CloseAllConcat(old(members), choices, f.choices);
        done, todo, order, choices := done + [f.tree], todo[1 + f.taken..], order + f.order, choices + f.choices;
      }
      SplitLinked(done, node, todo, parent, all);
      if todo != [] { OpenFirst(todo, parent); }
      AllTaken(s, rest, visibleIf, done, todo, order, choices);
    }

    /** One item of an implicit submenu. */
    method TakeItem(node: MenuNode, cur: MenuNode, visibleIf: Expr, ghost done: Forest, ghost todo: Forest,
                    ghost parent: MenuNode?, ghost all: set<MenuNode>)
      requires Split(done, node, todo, parent, all) && todo != [] && cur == todo[0].node && Nodes(todo) <= all
      modifies this, Nodes(todo)
      ensures var f := Finalize(todo[0], todo[1..], visibleIf);
              var later := todo[1 + f.taken..];
              && Split(done + [f.tree], node, later, parent, all) && cur.next == First(later, null)
              && syms == AddAll(old(syms), f.order) && members == CloseAll(old(members), f.choices)
      decreases Size(todo), 2
    {
      hide Linked, Distinct, Nodes, AddAll, CloseAll, Size, Split, Finalize;
      ghost var f := Finalize(todo[0], todo[1..], visibleIf);
      ghost var later := todo[1 + f.taken..];
      SplitLinked(done, node, todo, parent, all);
      NodesAllocated(done);
      FinalizeNode(cur, visibleIf, todo, parent);
      SplitAgain(done, node, todo, [f.tree] + later, parent, all);
      assert ([f.tree] + later)[1..] == later && ([f.tree] + later)[0] == f.tree;
      Open(done, node, [f.tree] + later, parent, all);
      assert cur in Nodes(todo) by { OpenFirst([f.tree] + later, parent); }
      cur.parent := node;
      Advance(done, f.tree, later, node, parent, all);
    }

    /** The other cases of _finalize_node(). */
    method FinalizeMenu(node: MenuNode, visibleIf: Expr, ghost t: Tree<MenuNode>, ghost rest: Forest)
      requires node == t.node && !t.props.item.SymNode?
      requires t.node.props == t.props && t.node.list == First(t.kids, null) && Linked(t.kids, t.node, null)
      requires Distinct(t.kids) && t.node !in Nodes(t.kids)
      modifies this, node`list, Nodes(t.kids)
      ensures var f := Finalize(t, rest, visibleIf);
              && f.taken == 0 && node.list == First(f.tree.kids, null) && Linked(f.tree.kids, node, null)
              && Distinct(f.tree.kids) && Nodes(f.tree.kids) <= Nodes(t.kids)
              && syms == AddAll(old(syms), f.order) && members == CloseAll(old(members), f.choices)
      decreases Size(t.kids), 4
    {
      hide Linked, Distinct, Nodes, AddAll, CloseAll, FinalizeAll, PropagatedAll, CleanLevel, Size;
      ghost var f := Finalize(t, rest, visibleIf);
      ghost var vis := VisibleIf(t.props, visibleIf);
      ghost var l := FinalizeAll(PropagatedAll(t.kids, BaseDep(t.props), vis), vis);
      NoNodes();
      PropagatedNone(BaseDep(t.props), vis);
      NothingFinalized(vis, syms, members);
      if node.list != null {
        var visible := if node.props.item.Menu? then MakeAnd(visibleIf, node.props.visibility) else visibleIf;
        PropagateDeps(node, visible, t.kids);
        PropagatedNodes(t.kids, BaseDep(t.props), vis);
        FinalizeChildren(node, visible, PropagatedAll(t.kids, BaseDep(t.props), vis));
      }
      FinishLevel(node, l.kids);
      if node.props.item.ChoiceNode? {
        NodesAllocated(f.tree.kids);
        FinalizeChoice(node, f.tree.kids);
      }
      NothingFinalized(vis, syms, CloseAll(old(members), l.choices));
      CloseAllConcat(old(members), l.choices, ClosedChoice(t.props, CleanLevel(l.kids)));
      OneAdded(old(syms), t);
      AddAllConcat(old(syms), [Entry(node, t.props)], l.order);
    }

    /** The loop over the children of a node. */
    method FinalizeChildren(node: MenuNode, visibleIf: Expr, ghost ts: Forest)
      requires node.list == First(ts, null) && Linked(ts, node, null) && Distinct(ts) && node !in Nodes(ts)
      modifies this, Nodes(ts)
      ensures var l := FinalizeAll(ts, visibleIf);
              && First(l.kids, null) == First(ts, null) && Linked(l.kids, node, null) && Distinct(l.kids)
              && Nodes(l.kids) <= Nodes(ts)
              && syms == AddAll(old(syms), l.order) && members == CloseAll(old(members), l.choices)
      decreases Size(ts), 3
    {
      hide Linked, Distinct, Nodes, AddAll, CloseAll, FinalizeAll, Size, FinalizedSoFar, Split, Finalize;
      var cur := node.list;
      ghost var done: Forest, todo, order, choices, all := [], ts, [], [], Nodes(ts);
      NothingDone(ts, visibleIf, syms, members);
      AllToDo(ts, node, node, all);
      while cur != null
        invariant FinalizedSoFar(ts, visibleIf, done, todo, order, choices)
        invariant cur == First(todo, null) && Split(done, node, todo, node, all)
        invariant First(done + todo, null) == First(ts, null)
        invariant syms == AddAll(old(syms), order) && members == CloseAll(old(members), choices)
        invariant Size(todo) <= Size(ts)
        decreases Size(todo)
      {
        Open(done, node, todo, node, all);
        ghost var f := Finalize(todo[0], todo[1..], visibleIf);
        ghost var later := todo[1 + f.taken..];
        MoreDone(ts, visibleIf, done, todo, order, choices);
        SplitLinked(done, node, todo, node, all);
        NodesAllocated(done);
        FinalizeNode(cur, visibleIf, todo, node);
        SplitAgain(done, node, todo, [f.tree] + later, node, all);
        assert ([f.tree] + later)[1..] == later && ([f.tree] + later)[0] == f.tree;
        Open(done, node, [f.tree] + later, node, all);
        Advance(done, f.tree, later, node, node, all);
        AddAllConcat(old(syms), order, f.order);
        CloseAllConcat(old(members), choices, f.choices);
        done, todo, order, choices := done + [f.tree], later, order + f.order, choices + f.choices;
        cur := cur.next;
      }
      SplitLinked(done, node, [], node, all);
      AllFinalized(ts, visibleIf, done, order, choices);
    }

    /** _finalize_node() for the first of the siblings 'ts'. */
    method FinalizeNode(node: MenuNode, visibleIf: Expr, ghost ts: Forest, ghost parent: MenuNode?)
      requires ts != [] && node == ts[0].node && Linked(ts, parent, null) && Distinct(ts)
      modifies this, Nodes(ts)
      ensures var r := Finalized(ts, visibleIf);
              Linked(r, parent, null) && Distinct(r) && Nodes(r) <= Nodes(ts)
      ensures var f := Finalize(ts[0], ts[1..], visibleIf);
              syms == AddAll(old(syms), f.order) && members == CloseAll(old(members), f.choices)
      decreases Size(ts), 1
    {
      hide Linked, Distinct, Nodes, Finalize, AddProps, AddAll, CloseAll, Size;
      ghost var t, rest := ts[0], ts[1..];
      ghost var f := Finalize(t, rest, visibleIf);
      OpenFirst(ts, parent);
      SizeOf(ts);
      NodesAllocated(t.kids);
      NodesAllocated(rest);
      if node.props.item.SymNode? {
        AddPropsToSym(node);
        OneAdded(old(syms), t);
        FinalizeSymbol(node, visibleIf, t, rest, parent);
        AddAllConcat(old(syms), [Entry(node, t.props)], f.order[1..]);
        assert f.order == [Entry(node, t.props)] + f.order[1..];
      } else {
        FinalizeMenu(node, visibleIf, t, rest);
        assert rest[0..] == rest;
      }
      CloseFirst(f.tree, rest[f.taken..], parent);
    }

    /** The finalization of the whole menu tree after parsing: every node is finalized once, in
        definition order and with what its surroundings contribute; the tree keeps all nodes but
        the 'if' nodes, in the same order; and the symbols collect the properties of their nodes. */
    method FinalizeTop(top: MenuNode, ghost t: Tree<MenuNode>)
      requires top == t.node && Linked([t], null, null) && Distinct([t]) && Parsed([t]) && t.props.item.Menu?
      modifies this, Nodes([t])
      ensures var f := Finalize(t, [], Y);
              && Linked([f.tree], null, null) && Distinct([f.tree])
              && AllAgree(f.order, Locations([t], []))
              && NonIfs(Entries([f.tree])) == NonIfs(f.order) && NoIfs([f.tree])
              && syms == AddAll(old(syms), f.order) && members == CloseAll(old(members), f.choices)
    {
      hide Linked, Distinct, Nodes, Finalize, AddAll, CloseAll, AllAgree, NonIfs, Locations, Parsed;
      ghost var f := Finalize(t, [], Y);
      assert [t][1..] == [] && [f.tree] + [] == [f.tree];
      FinalizeNode(top, Y, [t], null);
      EveryNodeOnce(t);
    }
  }
}
