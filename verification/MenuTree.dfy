/** Menu finalization as a function on trees: dependency propagation, implicit submenus,
    and the removal of 'if' nodes. */
module MenuTree {
  import opened Wrappers
  import opened Tristate
  import opened Expressions

  datatype MenuItem = SymNode(s: nat) | ChoiceNode(c: nat) | Menu | Comment | If

  datatype Select = Select(target: nat, cond: Expr)

  /** The properties of a menu node. For menus and comments, 'title' is the prompt text. */
  datatype Props = Props(
    item: MenuItem,
    title: string,
    prompt: Option<Expr>,
    dep: Expr,
    visibility: Expr,        // 'visible if', for menus
    defaults: seq<Default>,
    ranges: seq<Range>,
    selects: seq<Select>,
    implies: seq<Select>)

  /** A menu node with its children; 'node' is its identity. */
  datatype Tree<N> = Tree(node: N, props: Props, kids: seq<Tree<N>>)

  // Expressions

  function MakeAnd(a: Expr, b: Expr): Expr {
    if a == Y then b else if b == Y then a else if a == N || b == N then N else And(a, b)
  }

  function MakeOr(a: Expr, b: Expr): Expr {
    if a == N then b else if b == N then a else if a == Y || b == Y then Y else Or(a, b)
  }

  /** _expr_depends_on(), which treats 'sym != y' like 'sym = y'. */
  predicate ExprDependsOn(e: Expr, s: nat) {
    match e
    case Leaf(a) => a == Sym(s)
    case Cmp(rel, a, b) =>
      if !rel.Equal? && !rel.Unequal? then false
      else if a != Sym(s) && b != Sym(s) then false
      else
        var right := if b == Sym(s) then a else b;
        (rel.Equal? && right == Const("m")) || right == Const("y") || (rel.Unequal? && right == Const("n"))
    case And(l, r) => ExprDependsOn(l, s) || ExprDependsOn(r, s)
    case _ => false
  }

  /** The condition of the prompt, or the dependencies of a node without a prompt. */
  function Condition(p: Props): Expr {
    if p.prompt.Some? then p.prompt.value else p.dep
  }

  /** _auto_menu_dep(): does a node belong in an implicit submenu of symbol 's'? */
  predicate AutoMenuDep(s: nat, p: Props) {
    ExprDependsOn(Condition(p), s)
  }

  // Propagation from a node to a child

  function AndSelects(ss: seq<Select>, dep: Expr): seq<Select> {
    seq(|ss|, i requires 0 <= i < |ss| => Select(ss[i].target, MakeAnd(ss[i].cond, dep)))
  }

  function AndDefaults(ds: seq<Default>, dep: Expr): seq<Default> {
    seq(|ds|, i requires 0 <= i < |ds| => Default(ds[i].value, MakeAnd(ds[i].cond, dep)))
  }

  function AndRanges(rs: seq<Range>, dep: Expr): seq<Range> {
    seq(|rs|, i requires 0 <= i < |rs| => Range(rs[i].low, rs[i].high, MakeAnd(rs[i].cond, dep)))
  }

  /** The dependency that a node hands down: a choice stands for itself. */
  function BaseDep(p: Props): Expr {
    if p.item.ChoiceNode? then Mode(p.item.c) else p.dep
  }

  /** The 'visible if' condition that a node hands down. */
  function VisibleIf(p: Props, visibleIf: Expr): Expr {
    if p.item.Menu? then MakeAnd(visibleIf, p.visibility) else visibleIf
  }

  /** One iteration of _propagate_deps(). */
  function Propagated(p: Props, base: Expr, visibleIf: Expr): Props {
    var dep := MakeAnd(p.dep, base);
    if p.item.SymNode? || p.item.ChoiceNode? then
      p.(dep := dep,
         prompt := if p.prompt.Some? then Some(MakeAnd(p.prompt.value, MakeAnd(visibleIf, dep))) else None,
         defaults := AndDefaults(p.defaults, dep),
         ranges := AndRanges(p.ranges, dep),
         selects := AndSelects(p.selects, dep),
         implies := AndSelects(p.implies, dep))
    else
      p.(dep := dep, prompt := if p.prompt.Some? then Some(MakeAnd(p.prompt.value, dep)) else None)
  }

  function PropagatedAll<N>(ts: seq<Tree<N>>, base: Expr, visibleIf: Expr): (r: seq<Tree<N>>)
    ensures |r| == |ts| && Size(r) == Size(ts)
  {
    if ts == [] then [] else
    [ts[0].(props := Propagated(ts[0].props, base, visibleIf))] + PropagatedAll(ts[1..], base, visibleIf)
  }

  /** The number of nodes. */
  function Size<N>(ts: seq<Tree<N>>): nat {
    if ts == [] then 0 else 1 + Size(ts[0].kids) + Size(ts[1..])
  }

  lemma {:induction false} SizeConcat<N>(a: seq<Tree<N>>, b: seq<Tree<N>>)
    ensures Size(a + b) == Size(a) + Size(b)
  {
    if a == [] {
      assert a + b == b;
    } else {
      SizeConcat(a[1..], b);
      assert (a + b)[1..] == a[1..] + b;
    }
  }

  lemma SizeDrop<N>(ts: seq<Tree<N>>, j: nat)
    requires j <= |ts|
    ensures Size(ts[j..]) <= Size(ts)
  {
    SizeConcat(ts[..j], ts[j..]);
    assert ts == ts[..j] + ts[j..];
  }

  // Flattening

  /** Nodes without a prompt are replaced by themselves followed by their children, except
      for choices. */
  predicate Flattened(p: Props) {
    p.prompt.None? && !p.item.ChoiceNode?
  }

  function Flatten<N>(ts: seq<Tree<N>>): seq<Tree<N>>
    decreases Size(ts)
  {
    if ts == [] then []
    else if ts[0].kids != [] && Flattened(ts[0].props) then
      SizeConcat(ts[0].kids, ts[1..]);
      [ts[0].(kids := [])] + Flatten(ts[0].kids + ts[1..])
    else [ts[0]] + Flatten(ts[1..])
  }

  function RemoveIfs<N>(ts: seq<Tree<N>>): seq<Tree<N>> {
    if ts == [] then []
    else if ts[0].props.item.If? then RemoveIfs(ts[1..])
    else [ts[0]] + RemoveIfs(ts[1..])
  }

  // Finalization

  /** A node as it is when it is finalized. */
  datatype Entry<N> = Entry(node: N, props: Props)

  /** A finalized choice node, with the symbols of its children. */
  datatype ChoiceEntry = ChoiceEntry(c: nat, dep: Expr, defaults: seq<Default>, members: seq<nat>)

  /** Finalized siblings: how many of the given siblings they stand for, the nodes finalized
      on the way, in the order in which _finalize_node() is entered, and the choices, in the
      order in which it is left. */
  datatype Level<N> = Level(kids: seq<Tree<N>>, taken: nat, order: seq<Entry<N>>, choices: seq<ChoiceEntry>)

  /** A finalized node; 'taken' siblings have gone into its implicit submenu. */
  datatype Final<N> = Final(tree: Tree<N>, taken: nat, order: seq<Entry<N>>, choices: seq<ChoiceEntry>)

  /** The symbols of the nodes, in order. */
  function Members<N>(ts: seq<Tree<N>>): seq<nat> {
    if ts == [] then [] else (if ts[0].props.item.SymNode? then [ts[0].props.item.s] else []) + Members(ts[1..])
  }

  function ClosedChoice<N>(p: Props, kids: seq<Tree<N>>): seq<ChoiceEntry> {
    if p.item.ChoiceNode? then [ChoiceEntry(p.item.c, p.dep, p.defaults, Members(kids))] else []
  }

  /** The last steps for the children of a node. */
  function CleanLevel<N>(kids: seq<Tree<N>>): seq<Tree<N>> {
    RemoveIfs(Flatten(kids))
  }

  /** _finalize_node(), for a node and the siblings that follow it. */
  function Finalize<N>(t: Tree<N>, rest: seq<Tree<N>>, visibleIf: Expr): (f: Final<N>)
    ensures f.taken <= |rest| && f.tree.node == t.node && f.tree.props == t.props
    decreases 1 + Size(t.kids) + Size(rest), 1
  {
    if t.props.item.SymNode? then
      var l := TakeSubmenu(t.props.item.s, rest, visibleIf);
      Final(t.(kids := CleanLevel(if l.taken == 0 then t.kids else l.kids)), l.taken, [Entry(t.node, t.props)] + l.order, l.choices)
    else
      var vis := VisibleIf(t.props, visibleIf);
      var l := FinalizeAll(PropagatedAll(t.kids, BaseDep(t.props), vis), vis);
      var kids := CleanLevel(l.kids);
      Final(t.(kids := kids), 0, [Entry(t.node, t.props)] + l.order, l.choices + ClosedChoice(t.props, kids))
  }

  /** The loop that looks for items of an implicit submenu of symbol 's'. */
  function TakeSubmenu<N>(s: nat, rest: seq<Tree<N>>, visibleIf: Expr): (l: Level<N>)
    ensures l.taken <= |rest| && (l.taken == 0 <==> l.kids == [])
    decreases Size(rest), 2
  {
    if rest == [] || !AutoMenuDep(s, rest[0].props) then Level([], 0, [], []) else
    var f := Finalize(rest[0], rest[1..], visibleIf);
    SizeDrop(rest[1..], f.taken);
    assert rest[1..][f.taken..] == rest[1 + f.taken..];
    var l := TakeSubmenu(s, rest[1 + f.taken..], visibleIf);
    Level([f.tree] + l.kids, 1 + f.taken + l.taken, f.order + l.order, f.choices + l.choices)
  }

  /** The loop over the children of a menu, choice or if. */
  function FinalizeAll<N>(ts: seq<Tree<N>>, visibleIf: Expr): (l: Level<N>)
    ensures l.taken == |ts|
    decreases Size(ts), 2
  {
    if ts == [] then Level([], 0, [], []) else
    var f := Finalize(ts[0], ts[1..], visibleIf);
    SizeDrop(ts[1..], f.taken);
    assert ts[1..][f.taken..] == ts[1 + f.taken..];
    var l := FinalizeAll(ts[1 + f.taken..], visibleIf);
    Level([f.tree] + l.kids, |ts|, f.order + l.order, f.choices + l.choices)
  }

  // One iteration of each loop

  lemma RestIsSmaller<N>(ts: seq<Tree<N>>, n: nat)
    requires ts != [] && n < |ts|
    ensures Size(ts) == 1 + Size(ts[0].kids) + Size(ts[1..]) && Size(ts[1 + n..]) < Size(ts)
  {
    SizeDrop(ts[1..], n);
    assert ts[1..][n..] == ts[1 + n..];
  }

  lemma TakeSubmenuStep<N>(s: nat, rest: seq<Tree<N>>, visibleIf: Expr)
    requires rest != [] && AutoMenuDep(s, rest[0].props)
    ensures var f := Finalize(rest[0], rest[1..], visibleIf);
            var l := TakeSubmenu(s, rest[1 + f.taken..], visibleIf);
            TakeSubmenu(s, rest, visibleIf)
            == Level([f.tree] + l.kids, 1 + f.taken + l.taken, f.order + l.order, f.choices + l.choices)
  {
    hide Finalize;
  }

  lemma FinalizeAllStep<N>(ts: seq<Tree<N>>, visibleIf: Expr)
    requires ts != []
    ensures var f := Finalize(ts[0], ts[1..], visibleIf);
            var l := FinalizeAll(ts[1 + f.taken..], visibleIf);
            FinalizeAll(ts, visibleIf) == Level([f.tree] + l.kids, 1 + f.taken + l.taken, f.order + l.order, f.choices + l.choices)
  {
    hide Finalize;
  }
}
