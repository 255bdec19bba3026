/** What menu finalization establishes about the members of a choice. */
module ChoiceMembers {
  import opened Wrappers
  import opened Expressions
  import opened Evaluation
  import opened Dependencies
  import opened MenuTree
  import opened MenuOrder
  import opened Propagation
  import opened Collection
  import opened ValueLaws

  predicate LimitedProps(p: Props, c: nat) {
    Limited(p.dep, c) && (p.prompt.Some? ==> Limited(p.prompt.value, c))
  }

  /** Everything in the trees is limited by choice 'c', except below other choices. */
  predicate LimitedTrees<N>(ts: seq<Tree<N>>, c: nat) {
    ts == [] || (
      && LimitedProps(ts[0].props, c)
      && (ts[0].props.item.ChoiceNode? || LimitedTrees(ts[0].kids, c))
      && LimitedTrees(ts[1..], c))
  }

  predicate LimitedRoots<N>(ts: seq<Tree<N>>, c: nat) {
    forall i :: 0 <= i < |ts| ==> LimitedProps(ts[i].props, c)
  }

  lemma {:induction false} LimitedConcat<N>(a: seq<Tree<N>>, b: seq<Tree<N>>, c: nat)
    ensures LimitedTrees(a + b, c) <==> LimitedTrees(a, c) && LimitedTrees(b, c)
  {
    if a == [] {
      assert a + b == b;
    } else {
      assert (a + b)[1..] == a[1..] + b;
      LimitedConcat(a[1..], b, c);
    }
  }

  lemma {:induction false} FlattenLimited<N>(ts: seq<Tree<N>>, c: nat)
    requires LimitedTrees(ts, c)
    ensures LimitedTrees(Flatten(ts), c)
    decreases Size(ts)
  {
    hide LimitedProps;
    if ts != [] {
      if ts[0].kids != [] && Flattened(ts[0].props) {
        SizeConcat(ts[0].kids, ts[1..]);
        LimitedConcat(ts[0].kids, ts[1..], c);
        FlattenLimited(ts[0].kids + ts[1..], c);
      } else {
        FlattenLimited(ts[1..], c);
      }
    }
  }

  lemma {:induction false} RemoveIfsLimited<N>(ts: seq<Tree<N>>, c: nat)
    requires LimitedTrees(ts, c)
    ensures LimitedTrees(RemoveIfs(ts), c)
  {
    hide LimitedProps;
    if ts == [] {
    } else {
      RemoveIfsLimited(ts[1..], c);
    }
  }

  lemma LimitedPropagated(p: Props, base: Expr, visibleIf: Expr, c: nat)
    requires Limited(base, c)
    ensures LimitedProps(Propagated(p, base, visibleIf), c)
  {
    hide MakeAnd;
    LimitedAnd(p.dep, base, c);
    if p.prompt.Some? {
      var dep, own := MakeAnd(p.dep, base), p.prompt.value;
      LimitedAnd(visibleIf, dep, c);
      LimitedAnd(own, dep, c);
      LimitedAnd(own, MakeAnd(visibleIf, dep), c);
    }
  }

  lemma {:induction false} PropagatedIsLimited<N>(ts: seq<Tree<N>>, base: Expr, visibleIf: Expr, c: nat)
    requires Limited(base, c)
    ensures LimitedRoots(PropagatedAll(ts, base, visibleIf), c)
  {
    hide LimitedProps, Propagated;
    if ts == [] {
    } else {
      LimitedPropagated(ts[0].props, base, visibleIf, c);
      PropagatedIsLimited(ts[1..], base, visibleIf, c);
    }
  }

  lemma {:induction false} FinalizeLimited<N>(t: Tree<N>, rest: seq<Tree<N>>, visibleIf: Expr, c: nat)
    requires Parsed([t]) && Parsed(rest) && LimitedProps(t.props, c) && LimitedRoots(rest, c)
    ensures LimitedTrees([Finalize(t, rest, visibleIf).tree], c)
    decreases 1 + Size(t.kids) + Size(rest), 1
  {
    hide LimitedProps, TakeSubmenu, FinalizeAll, Flatten, RemoveIfs, PropagatedAll, AutoMenuDep;
    var kids: seq<Tree<N>>;
    if t.props.item.SymNode? {
      kids := TakeSubmenu(t.props.item.s, rest, visibleIf).kids;
      TakeSubmenuLimited(t.props.item.s, rest, visibleIf, c);
    } else {
      var vis := VisibleIf(t.props, visibleIf);
      var below := PropagatedAll(t.kids, BaseDep(t.props), vis);
      kids := FinalizeAll(below, vis).kids;
      PropagatedIsParsed(t.kids, BaseDep(t.props), vis);
      if !t.props.item.ChoiceNode? {
        assert Limited(t.props.dep, c) by { DepIsLimited(t.props, c); }
        PropagatedIsLimited(t.kids, BaseDep(t.props), vis, c);
        FinalizeAllLimited(below, vis, c);
      }
    }
    if !t.props.item.ChoiceNode? {
      FlattenLimited(kids, c);
      RemoveIfsLimited(Flatten(kids), c);
    }
  }

  lemma DepIsLimited(p: Props, c: nat)
    requires LimitedProps(p, c)
    ensures Limited(p.dep, c)
  {
  }

  lemma {:induction false} TakeSubmenuLimited<N>(s: nat, rest: seq<Tree<N>>, visibleIf: Expr, c: nat)
    requires Parsed(rest) && LimitedRoots(rest, c)
    ensures LimitedTrees(TakeSubmenu(s, rest, visibleIf).kids, c)
    decreases Size(rest), 2
  {
    hide LimitedProps, Finalize, AutoMenuDep, Parsed, Size;
    if rest != [] && AutoMenuDep(s, rest[0].props) {
      var f := Finalize(rest[0], rest[1..], visibleIf);
      RestIsSmaller(rest, f.taken);
      ParsedParts(rest, 1 + f.taken);
      FinalizeLimited(rest[0], rest[1..], visibleIf, c);
      TakeSubmenuStep(s, rest, visibleIf);
      TakeSubmenuLimited(s, rest[1 + f.taken..], visibleIf, c);
      LimitedConcat([f.tree], TakeSubmenu(s, rest[1 + f.taken..], visibleIf).kids, c);
    }
  }

  lemma {:induction false} FinalizeAllLimited<N>(ts: seq<Tree<N>>, visibleIf: Expr, c: nat)
    requires Parsed(ts) && LimitedRoots(ts, c)
    ensures LimitedTrees(FinalizeAll(ts, visibleIf).kids, c)
    decreases Size(ts), 2
  {
    hide LimitedProps, Finalize, Parsed, Size;
    if ts == [] {
    } else {
      var f := Finalize(ts[0], ts[1..], visibleIf);
      RestIsSmaller(ts, f.taken);
      ParsedParts(ts, 1 + f.taken);
      FinalizeLimited(ts[0], ts[1..], visibleIf, c);
      FinalizeAllStep(ts, visibleIf);
      FinalizeAllLimited(ts[1 + f.taken..], visibleIf, c);
      LimitedConcat([f.tree], FinalizeAll(ts[1 + f.taken..], visibleIf).kids, c);
    }
  }

  /** The nodes that end up directly below a choice, whether they were written there, in an
      'if', or in the implicit submenu of an invisible symbol, have dependencies and a prompt
      that the mode of the choice bounds. These nodes make their symbols choice symbols. */
  lemma {:induction false} MembersAreLimited<N>(t: Tree<N>, visibleIf: Expr, i: nat)
    requires Parsed([t]) && t.props.item.ChoiceNode? && i < |Finalize(t, [], visibleIf).tree.kids|
    ensures LimitedProps(Finalize(t, [], visibleIf).tree.kids[i].props, t.props.item.c)
  {
    hide LimitedProps, FinalizeAll, Flatten, RemoveIfs, PropagatedAll;
    var vis := VisibleIf(t.props, visibleIf);
    var below := PropagatedAll(t.kids, BaseDep(t.props), vis);
    var c := t.props.item.c;
    PropagatedIsParsed(t.kids, BaseDep(t.props), vis);
    PropagatedIsLimited(t.kids, BaseDep(t.props), vis, c);
    FinalizeAllLimited(below, vis, c);
    FlattenLimited(FinalizeAll(below, vis).kids, c);
    RemoveIfsLimited(Flatten(FinalizeAll(below, vis).kids), c);
    LimitedAt(Finalize(t, [], visibleIf).tree.kids, i, c);
  }

  lemma {:induction false} LimitedAt<N>(ts: seq<Tree<N>>, i: nat, c: nat)
    requires LimitedTrees(ts, c) && i < |ts|
    ensures LimitedProps(ts[i].props, c)
  {
    if i == 0 {
    } else {
      LimitedAt(ts[1..], i - 1, c);
    }
  }

  /** Choice 'c' is the innermost one around the last node. */
  ghost predicate InChoice(path: seq<Props>, c: nat) {
    exists j: nat :: Inside(path, j) && path[j].item.c == c
  }

  /** Every node of symbol 's' is in choice 'c', with no other choice between them. */
  ghost predicate OnlyIn<N>(top: Tree<N>, s: nat, c: nat) {
    var locations := Locations([top], []);
    forall i :: 0 <= i < |locations| && locations[i].path[|locations[i].path| - 1].item == SymNode(s) ==>
      InChoice(locations[i].path, c)
  }

  lemma PathIsLimited(path: seq<Props>, c: nat)
    requires InChoice(path, c)
    ensures var p := Effective(path); p.prompt.Some? ==> Limited(p.prompt.value, c)
  {
    hide Effective, HasMode;
    var j: nat :| Inside(path, j) && path[j].item.c == c;
    InsideIsLimited(path, j);
  }

  lemma {:induction false} NodeIsLimited<N>(top: Tree<N>, s: nat, c: nat, i: nat)
    requires Parsed([top]) && !top.props.item.SymNode? && OnlyIn(top, s, c) && i < |Finalize(top, [], Y).order|
    ensures var p := Finalize(top, [], Y).order[i].props;
            p.item == SymNode(s) && p.prompt.Some? ==> Limited(p.prompt.value, c)
  {
    hide Finalize, Parsed, Effective, Inside, InChoice, HasMode, Limited, Locations;
    var locations := Locations([top], []);
    EveryNodeOnce(top);
    assert Agrees(Finalize(top, [], Y).order[i], locations[i]);
    var path := locations[i].path;
    EffectivePrompt(path);
    if path[|path| - 1].item == SymNode(s) { PathIsLimited(path, c); }
  }

  /** A symbol whose nodes are all in a choice is as the laws about choices assume: its prompts are
      bounded by the mode, and it mentions the choice unless all of its prompts are n. */
  lemma {:induction false} ChoiceSymbolIsSane<N>(k: Config, top: Tree<N>, s: nat, c: nat, e: Expr)
    requires Parsed([top]) && !top.props.item.SymNode? && s < |k.syms| && BuiltFrom(k, Finalize(top, [], Y).order)
    requires OnlyIn(top, s, c) && e in k.Sym(s).prompts
    ensures Limited(e, c) && (e != N ==> Mentions(ItemExprs(k, SymItem(s)), ChItem(c)))
  {
    hide Finalize, Parsed, BuiltFrom, Collected, ListsOf, HasMode, OnlyIn, ExprItems;
    var es := Finalize(top, [], Y).order;
    BuiltSymbol(k, es, s);
    PromptOfNode(es, s, e);
    var i :| 0 <= i < |es| && es[i].props.item == SymNode(s) && es[i].props.prompt == Some(e);
    NodeIsLimited(top, s, c, i);
    if e != N {
      HasModeBounds(k, e, c, _ => SelV(None));
      assert e in ItemExprs(k, SymItem(s));
    }
  }
}
