/** What it means for an item that it belongs in an implicit submenu. */
module MenuDependence {
  import opened Wrappers
  import opened Tristate
  import opened Expressions
  import opened Evaluation
  import opened MenuTree
  import opened MenuOrder
  import opened Propagation
  import opened Printing

  /** Is 'e' a comparison of symbol 's' with y for inequality? It is accepted as a dependency on
      the symbol, although the comment in the code lists 'sym != n' only. */
  predicate ComparesUnequalY(e: Expr, s: nat) {
    e.Cmp? && e.rel.Unequal? && ((e.b == Sym(s) && e.a == Const("y")) || (e.a == Sym(s) && e.b == Const("y")))
  }

  /** An operand of a conjunction that is a dependency as it should be. */
  predicate Requires(e: Expr, s: nat) {
    !e.And? && ExprDependsOn(e, s) && !ComparesUnequalY(e, s)
  }

  /** Symbol 's' is bool or tristate, and n. */
  ghost predicate IsN(k: Config, s: nat, env: Env) {
    k.Sym(s).ty.Logic() && GetTri(env, SymTri(s)) == 0
  }

  /** Where the symbol is n, so is an accepted operand, unless it is 'sym != y': that is y. */
  lemma {:induction false} OperandValue(k: Config, e: Expr, s: nat, env: Env)
    requires IsN(k, s, env) && !e.And? && ExprDependsOn(e, s)
    ensures Value(k, e, env) == if ComparesUnequalY(e, s) then 2 else 0
  {
    if e.Cmp? {
      var other := if e.b == Sym(s) then e.a else e.b;
      assert AtomNum(k, Sym(s), env).v == Some(0);
      assert other.Const?;
      assert AtomNum(k, other, env).v == Some(if other == Const("n") then 0 else if other == Const("m") then 1 else 2);
    }
  }

  /** What makes an item depend on symbol 's': the symbol itself, a comparison of it with m or y
      for equality or with n for inequality, or one with y for inequality. */
  predicate IsDependency(x: Expr, s: nat) {
    || x == Leaf(Sym(s))
    || x == Cmp(Equal, Sym(s), Const("m")) || x == Cmp(Equal, Const("m"), Sym(s))
    || x == Cmp(Equal, Sym(s), Const("y")) || x == Cmp(Equal, Const("y"), Sym(s))
    || x == Cmp(Unequal, Sym(s), Const("n")) || x == Cmp(Unequal, Const("n"), Sym(s))
    || ComparesUnequalY(x, s)
  }

  /** Has the item's prompt, or the item itself if it has none, such a condition? */
  predicate HasDependency(p: Props, s: nat) {
    exists x :: x in SplitAnd(if p.prompt.Some? then p.prompt.value else p.dep) && IsDependency(x, s)
  }

  lemma {:induction false} DependencyIs(e: Expr, s: nat)
    ensures ExprDependsOn(e, s) <==> exists x :: x in SplitAnd(e) && IsDependency(x, s)
  {
    if e.And? {
      DependencyIs(e.left, s);
      DependencyIs(e.right, s);
    } else {
      assert e in SplitAnd(e);
    }
  }

  /** A symbol takes the item that follows it into its submenu if and only if that item has a
      dependency on it, and goes on until it meets an item without one. */
  lemma SubmenuIs<N>(t: Tree<N>, rest: seq<Tree<N>>, visibleIf: Expr)
    requires t.props.item.SymNode?
    ensures var s, f := t.props.item.s, Finalize(t, rest, visibleIf);
            && (f.taken > 0 <==> rest != [] && HasDependency(rest[0].props, s))
            && (f.taken < |rest| ==> !HasDependency(rest[f.taken].props, s))
  {
    hide TakeSubmenu, ExprDependsOn, CleanLevel;
    var s, f := t.props.item.s, Finalize(t, rest, visibleIf);
    SubmenuIsMaximal(s, rest, visibleIf);
    SubmenuStops(s, rest, visibleIf);
    if rest != [] {
      DependencyIs(Condition(rest[0].props), s);
      if AutoMenuDep(s, rest[0].props) { TakeSubmenuStep(s, rest, visibleIf); }
    }
    if f.taken < |rest| { DependencyIs(Condition(rest[f.taken].props), s); }
  }

  /** A conjunction depends on the symbol if one of its operands does. */
  lemma {:induction false} DependsByOperand(e: Expr, s: nat)
    ensures ExprDependsOn(e, s) <==> exists x :: x in SplitAnd(e) && ExprDependsOn(x, s)
    ensures forall x :: x in SplitAnd(e) ==> !x.And?
  {
    if e.And? {
      DependsByOperand(e.left, s);
      DependsByOperand(e.right, s);
    } else {
      assert e in SplitAnd(e);
    }
  }

  /** ... and is n if one of its operands is. */
  lemma {:induction false} ConjunctionIsN(k: Config, e: Expr, env: Env)
    ensures Value(k, e, env) == 0 <==> exists x :: x in SplitAnd(e) && Value(k, x, env) == 0
  {
    if e.And? {
      ConjunctionIsN(k, e.left, env);
      ConjunctionIsN(k, e.right, env);
    } else {
      assert e in SplitAnd(e);
    }
  }

  /** Where the symbol is n, an accepted condition is n if and only if it has an accepted operand
      other than 'sym != y', or an operand that is not accepted is n by itself. */
  lemma {:induction false} AcceptedIsN(k: Config, e: Expr, s: nat, env: Env)
    requires IsN(k, s, env)
    ensures Value(k, e, env) == 0 <==>
              || (exists x :: x in SplitAnd(e) && Requires(x, s))
              || (exists x :: x in SplitAnd(e) && !ExprDependsOn(x, s) && Value(k, x, env) == 0)
  {
    hide Value, ExprDependsOn, SplitAnd;
    ConjunctionIsN(k, e, env);
    DependsByOperand(e, s);
    forall x | x in SplitAnd(e) && ExprDependsOn(x, s) ensures Value(k, x, env) == 0 <==> Requires(x, s) {
      OperandValue(k, x, s, env);
    }
  }

  /** The items of an implicit submenu are invisible where its symbol is n, except those that got
      into it by 'sym != y' alone: for them it depends on their other conditions. */
  lemma {:induction false} SubmenuIsHidden<N>(k: Config, s: nat, rest: seq<Tree<N>>, visibleIf: Expr, t: Tree<N>, env: Env)
    requires IsN(k, s, env) && t in TakeSubmenu(s, rest, visibleIf).kids
    ensures var e := Condition(t.props);
            if forall x :: x in SplitAnd(e) && ExprDependsOn(x, s) ==> ComparesUnequalY(x, s)
            then Value(k, e, env) == 0 <==> exists x :: x in SplitAnd(e) && !ExprDependsOn(x, s) && Value(k, x, env) == 0
            else Value(k, e, env) == 0
  {
    hide Value, ExprDependsOn, SplitAnd, TakeSubmenu;
    var e := Condition(t.props);
    SubmenuIsMaximal(s, rest, visibleIf);
    DependsByOperand(e, s);
    AcceptedIsN(k, e, s, env);
  }

  // A symbol and an item that follows it

  /** The nodes of 'bool "s"' for S, and of 'bool "t"' and 'depends on e' for T. */
  const S_NODE: Tree<nat> := Tree(1, Props(SymNode(0), "s", Some(Y), Y, Y, [], [], [], []), [])

  function TNode(prompt: Expr, dep: Expr): Tree<nat> {
    Tree(2, Props(SymNode(1), "t", Some(prompt), dep, Y, [], [], [], []), [])
  }

  function TwoNodes(e: Expr): Tree<nat> {
    Tree(0, Props(Menu, "Main menu", Some(Y), Y, Y, [], [], [], []), [S_NODE, TNode(Y, e)])
  }

  lemma {:induction false} CleanKeeps(ts: seq<Tree<nat>>)
    requires forall t :: t in ts ==> t.props.prompt.Some? && !t.props.item.If?
    ensures Flatten(ts) == ts && RemoveIfs(ts) == ts && CleanLevel(ts) == ts
  {
    if ts == [] {
    } else {
      CleanKeeps(ts[1..]);
      assert ts == [ts[0]] + ts[1..];
    }
  }

  lemma LeafIsFinal(t: Tree<nat>, rest: seq<Tree<nat>>)
    requires t.props.item.SymNode? && t.kids == [] && (rest == [] || !AutoMenuDep(t.props.item.s, rest[0].props))
    ensures Finalize(t, rest, Y) == Final(t, 0, [Entry(t.node, t.props)], [])
  {
  }

  lemma NothingTaken(s: nat)
    ensures var none: seq<Tree<nat>> := []; TakeSubmenu(s, none, Y) == FinalizeAll(none, Y) == Level([], 0, [], [])
  {
  }

  /** A symbol takes the one item that follows, or leaves it where it is. */
  lemma {:induction false} TwoAreFinal(s: Tree<nat>, t: Tree<nat>)
    requires s.props.item.SymNode? && s.kids == []
    requires t.props.item.SymNode? && t.kids == [] && t.props.prompt.Some?
    ensures FinalizeAll([s, t], Y).kids == if AutoMenuDep(s.props.item.s, t.props) then [s.(kids := [t])] else [s, t]
  {
    hide AutoMenuDep, CleanLevel, TakeSubmenu, FinalizeAll;
    assert [t][1..] == [] && [t][1 + 0..] == [] && [s, t][1..] == [t] && [s, t][1 + 1..] == [] && [s, t][1 + 0..] == [t];
    LeafIsFinal(t, []);
    NothingTaken(s.props.item.s);
    FinalizeAllStep([s, t], Y);
    if AutoMenuDep(s.props.item.s, t.props) {
      TakeSubmenuStep(s.props.item.s, [t], Y);
      assert TakeSubmenu(s.props.item.s, [t], Y).kids == [t] && TakeSubmenu(s.props.item.s, [t], Y).taken == 1;
      CleanKeeps([t]);
      assert Finalize(s, [t], Y).tree == s.(kids := [t]) && Finalize(s, [t], Y).taken == 1;
    } else {
      LeafIsFinal(s, [t]);
      FinalizeAllStep([t], Y);
    }
  }

  lemma TopKids(top: Tree<nat>)
    requires top.props.item.Menu? && top.props.dep == Y && top.props.visibility == Y
    ensures Finalize(top, [], Y).tree.kids == CleanLevel(FinalizeAll(PropagatedAll(top.kids, Y, Y), Y).kids)
  {
    hide FinalizeAll, CleanLevel;
  }

  /** The dependency of T is propagated to its prompt. */
  lemma TwoPropagated(e: Expr)
    ensures PropagatedAll(TwoNodes(e).kids, Y, Y) == [S_NODE, TNode(e, e)]
  {
    var t := TNode(Y, e);
    assert [S_NODE, t][1..] == [t] && [t][1..] == [];
    assert Propagated(t.props, Y, Y) == TNode(e, e).props && Propagated(S_NODE.props, Y, Y) == S_NODE.props;
    assert PropagatedAll([t], Y, Y) == [TNode(e, e)] + PropagatedAll([t][1..], Y, Y);
    assert PropagatedAll([S_NODE, t], Y, Y) == [S_NODE] + PropagatedAll([S_NODE, t][1..], Y, Y);
  }

  /** T, which depends on 'e', becomes a child of S if and only if an operand of 'e' is a
      dependency on S, as with a plain 'depends on S'. */
  lemma {:induction false} DependentIsChild(e: Expr)
    ensures Finalize(TwoNodes(e), [], Y).tree.kids ==
            if exists x :: x in SplitAnd(e) && IsDependency(x, 0) then [S_NODE.(kids := [TNode(e, e)])]
            else [S_NODE, TNode(e, e)]
    ensures Finalize(TwoNodes(Leaf(Sym(0))), [], Y).tree.kids == [S_NODE.(kids := [TNode(Leaf(Sym(0)), Leaf(Sym(0)))])]
  {
    hide TakeSubmenu, FinalizeAll, CleanLevel, PropagatedAll, Finalize, ExprDependsOn;
    forall e: Expr ensures Finalize(TwoNodes(e), [], Y).tree.kids ==
      if exists x :: x in SplitAnd(e) && IsDependency(x, 0) then [S_NODE.(kids := [TNode(e, e)])] else [S_NODE, TNode(e, e)]
    {
      TopKids(TwoNodes(e));
      TwoPropagated(e);
      TwoAreFinal(S_NODE, TNode(e, e));
      DependencyIs(e, 0);
      var kids := FinalizeAll([S_NODE, TNode(e, e)], Y).kids;
      CleanKeeps(kids);
    }
    var plain := Leaf(Sym(0));
    assert plain in SplitAnd(plain);
  }

  // An item in the submenu of a symbol that hides it

  const UNEQUAL_Y := Cmp(Unequal, Sym(0), Const("y"))

  /** With 'depends on S != y', T gets into the submenu of S and is visible exactly when S is not y. */
  lemma {:induction false} UnequalYIsTaken(k: Config, env: Env)
    requires k.Sym(0).ty.Logic()
    ensures Finalize(TwoNodes(UNEQUAL_Y), [], Y).tree.kids == [S_NODE.(kids := [TNode(UNEQUAL_Y, UNEQUAL_Y)])]
    ensures Value(k, UNEQUAL_Y, env) != 0 <==> GetTri(env, SymTri(0)) != 2
  {
    hide Finalize;
    DependentIsChild(UNEQUAL_Y);
    assert UNEQUAL_Y in SplitAnd(UNEQUAL_Y);
    assert AtomNum(k, Sym(0), env).v == Some(GetTri(env, SymTri(0))) && AtomNum(k, Const("y"), env).v == Some(2);
  }
}
