/** The properties that symbols collect from their menu nodes during finalization. */
module Collection {
  import opened Wrappers
  import opened Tristate
  import opened Expressions
  import opened Evaluation
  import opened MenuTree
  import opened MenuOrder
  import opened Propagation

  /** The part of a symbol that finalization fills in. */
  datatype SymProps = SymProps(
    directDep: Expr,
    defaults: seq<Default>,
    ranges: seq<Range>,
    selects: seq<Select>,
    implies: seq<Select>,
    revDep: Expr,
    weakRevDep: Expr)

  const NO_PROPS := SymProps(N, [], [], [], [], N, N)

  /** What a menu node adds to its own symbol. */
  function AddOwn(d: SymProps, p: Props): SymProps {
    d.(directDep := MakeOr(d.directDep, p.dep),
       defaults := d.defaults + p.defaults,
       ranges := d.ranges + p.ranges,
       selects := d.selects + p.selects,
       implies := d.implies + p.implies)
  }

  /** Symbol 's' selects a symbol. An undefined target has no place in 'all'. */
  function AddRev(all: seq<SymProps>, s: nat, sel: Select): seq<SymProps> {
    if sel.target >= |all| then all else
    all[sel.target := all[sel.target].(
      revDep := MakeOr(all[sel.target].revDep, MakeAnd(Leaf(Sym(s)), sel.cond)))]
  }

  function AddWeakRev(all: seq<SymProps>, s: nat, imp: Select): seq<SymProps> {
    if imp.target >= |all| then all else
    all[imp.target := all[imp.target].(
      weakRevDep := MakeOr(all[imp.target].weakRevDep, MakeAnd(Leaf(Sym(s)), imp.cond)))]
  }

  function AddRevs(all: seq<SymProps>, s: nat, sels: seq<Select>): (r: seq<SymProps>)
    ensures |r| == |all|
  {
    if sels == [] then all else AddRev(AddRevs(all, s, sels[..|sels| - 1]), s, sels[|sels| - 1])
  }

  function AddWeakRevs(all: seq<SymProps>, s: nat, imps: seq<Select>): (r: seq<SymProps>)
    ensures |r| == |all|
  {
    if imps == [] then all else AddWeakRev(AddWeakRevs(all, s, imps[..|imps| - 1]), s, imps[|imps| - 1])
  }

  /** _add_props_to_sym(), if the node is that of a symbol. */
  function AddProps(all: seq<SymProps>, p: Props): (r: seq<SymProps>)
    ensures |r| == |all|
  {
    if !p.item.SymNode? || p.item.s >= |all| then all else
    var s := p.item.s;
    AddWeakRevs(AddRevs(all[s := AddOwn(all[s], p)], s, p.selects), s, p.implies)
  }

  function AddAll<N>(all: seq<SymProps>, es: seq<Entry<N>>): (r: seq<SymProps>)
    ensures |r| == |all|
  {
    if es == [] then all else AddProps(AddAll(all, es[..|es| - 1]), es[|es| - 1].props)
  }

  lemma {:induction false} AddAllConcat<N>(all: seq<SymProps>, a: seq<Entry<N>>, b: seq<Entry<N>>)
    ensures AddAll(all, a + b) == AddAll(AddAll(all, a), b)
  {
    if b == [] {
      assert a + b == a;
    } else {
      assert (a + b)[..|a + b| - 1] == a + b[..|b| - 1];
      AddAllConcat(all, a, b[..|b| - 1]);
    }
  }

  /** What 'n' symbols have collected when the given nodes have been finalized. */
  function Collected<N>(n: nat, es: seq<Entry<N>>): (r: seq<SymProps>)
    ensures |r| == n
  {
    AddAll(seq(n, _ => NO_PROPS), es)
  }

  // Lists are concatenated in definition order

  datatype Lists = Lists(
    prompts: seq<Expr>, defaults: seq<Default>, ranges: seq<Range>, selects: seq<Select>, implies: seq<Select>)

  /** All properties of the nodes of symbol 's', in the order of the nodes. */
  function ListsOf<N>(es: seq<Entry<N>>, s: nat): Lists {
    if es == [] then Lists([], [], [], [], []) else
    var p, l := es[0].props, ListsOf(es[1..], s);
    if p.item != SymNode(s) then l else
    Lists((if p.prompt.Some? then [p.prompt.value] else []) + l.prompts, p.defaults + l.defaults,
          p.ranges + l.ranges, p.selects + l.selects, p.implies + l.implies)
  }

  lemma {:induction false} ListsSnoc<N>(es: seq<Entry<N>>, s: nat)
    requires es != []
    ensures var p, l, all := es[|es| - 1].props, ListsOf(es[..|es| - 1], s), ListsOf(es, s);
            if p.item != SymNode(s) then all == l
            else && all.defaults == l.defaults + p.defaults && all.ranges == l.ranges + p.ranges
                 && all.selects == l.selects + p.selects && all.implies == l.implies + p.implies
  {
    if |es| == 1 {
    } else {
      ListsSnoc(es[1..], s);
      assert es[1..][..|es| - 2] == es[..|es| - 1][1..];
    }
  }

  lemma {:induction false} RevsKeep(all: seq<SymProps>, t: nat, sels: seq<Select>, s: nat)
    requires s < |all|
    ensures var d, d' := all[s], AddRevs(all, t, sels)[s];
            d' == d.(revDep := d'.revDep)
    ensures var d, d' := all[s], AddWeakRevs(all, t, sels)[s];
            d' == d.(weakRevDep := d'.weakRevDep)
  {
    if sels == [] {
    } else {
      RevsKeep(all, t, sels[..|sels| - 1], s);
    }
  }

  /** The properties of a symbol are those of its menu nodes, in definition order. */
  lemma {:induction false} ListsAreCollected<N>(n: nat, es: seq<Entry<N>>, s: nat)
    requires s < n
    ensures var d, l := Collected(n, es)[s], ListsOf(es, s);
            d.defaults == l.defaults && d.ranges == l.ranges && d.selects == l.selects && d.implies == l.implies
  {
    if es == [] {
    } else {
      var before, p := es[..|es| - 1], es[|es| - 1].props;
      ListsAreCollected(n, before, s);
      ListsSnoc(es, s);
      if p.item.SymNode? && p.item.s < n {
        var t, all := p.item.s, Collected(n, before);
        var all' := all[t := AddOwn(all[t], p)];
        RevsKeep(all', t, p.selects, s);
        RevsKeep(AddRevs(all', t, p.selects), t, p.implies, s);
      }
    }
  }

  // Dependencies are maxima

  /** One of the nodes of symbol 's' has dependencies of at least 'x'. */
  ghost predicate Supported<N>(k: Config, es: seq<Entry<N>>, s: nat, env: Env, x: Tri) {
    exists i :: 0 <= i < |es| && es[i].props.item == SymNode(s) && x <= Value(k, es[i].props.dep, env)
  }

  ghost predicate Contributes(k: Config, t: nat, sels: seq<Select>, j: int, s: nat, env: Env, x: Tri) {
    && 0 <= j < |sels| && sels[j].target == s
    && x <= GetTri(env, SymTri(t)) && x <= Value(k, sels[j].cond, env)
  }

  /** Some symbol selects 's' with at least 'x'. */
  ghost predicate Selected<N>(k: Config, es: seq<Entry<N>>, s: nat, env: Env, x: Tri) {
    exists i, j :: 0 <= i < |es| && es[i].props.item.SymNode? &&
      Contributes(k, es[i].props.item.s, es[i].props.selects, j, s, env, x)
  }

  ghost predicate Implied<N>(k: Config, es: seq<Entry<N>>, s: nat, env: Env, x: Tri) {
    exists i, j :: 0 <= i < |es| && es[i].props.item.SymNode? &&
      Contributes(k, es[i].props.item.s, es[i].props.implies, j, s, env, x)
  }

  lemma {:induction false} RevsAreMax(k: Config, all: seq<SymProps>, t: nat, sels: seq<Select>, s: nat, env: Env, x: Tri)
    requires s < |all|
    ensures x <= Value(k, AddRevs(all, t, sels)[s].revDep, env) <==>
            x <= Value(k, all[s].revDep, env) || exists j :: Contributes(k, t, sels, j, s, env, x)
    ensures x <= Value(k, AddWeakRevs(all, t, sels)[s].weakRevDep, env) <==>
            x <= Value(k, all[s].weakRevDep, env) || exists j :: Contributes(k, t, sels, j, s, env, x)
  {
    hide Value, MakeAnd, MakeOr;
    if sels == [] {
    } else {
      var n := |sels| - 1;
      var some, last := sels[..n], sels[n];
      RevsAreMax(k, all, t, some, s, env, x);
      assert forall j :: Contributes(k, t, some, j, s, env, x) ==> Contributes(k, t, sels, j, s, env, x);
      assert forall j :: Contributes(k, t, sels, j, s, env, x) ==> j == n || Contributes(k, t, some, j, s, env, x);
      assert Contributes(k, t, sels, n, s, env, x) <==>
             last.target == s && x <= GetTri(env, SymTri(t)) && x <= Value(k, last.cond, env);
      AndIsMin(k, Leaf(Sym(t)), last.cond, env);
      SymbolValue(k, t, env);
      OrIsMax(k, AddRevs(all, t, some)[s].revDep, MakeAnd(Leaf(Sym(t)), last.cond), env);
      OrIsMax(k, AddWeakRevs(all, t, some)[s].weakRevDep, MakeAnd(Leaf(Sym(t)), last.cond), env);
    }
  }

  lemma SymbolValue(k: Config, s: nat, env: Env)
    ensures Value(k, Leaf(Sym(s)), env) == GetTri(env, SymTri(s))
  {
  }

  /** One more node. */
  lemma AddPropsIsMax(k: Config, all: seq<SymProps>, p: Props, s: nat, env: Env, x: Tri)
    requires s < |all| && (p.item.SymNode? ==> p.item.s < |all|)
    ensures var d, d' := all[s], AddProps(all, p)[s];
            && (x <= Value(k, d'.directDep, env) <==>
                  x <= Value(k, d.directDep, env) || (p.item == SymNode(s) && x <= Value(k, p.dep, env)))
            && (x <= Value(k, d'.revDep, env) <==>
                  x <= Value(k, d.revDep, env) ||
                  (p.item.SymNode? && exists j :: Contributes(k, p.item.s, p.selects, j, s, env, x)))
            && (x <= Value(k, d'.weakRevDep, env) <==>
                  x <= Value(k, d.weakRevDep, env) ||
                  (p.item.SymNode? && exists j :: Contributes(k, p.item.s, p.implies, j, s, env, x)))
  {
    hide Value, MakeOr, AddRevs, AddWeakRevs, Contributes;
    if p.item.SymNode? {
      var t := p.item.s;
      var all' := all[t := AddOwn(all[t], p)];
      var all'' := AddRevs(all', t, p.selects);
      OrIsMax(k, all[t].directDep, p.dep, env);
      RevsKeep(all', t, p.selects, s);
      RevsKeep(all'', t, p.implies, s);
      RevsAreMax(k, all', t, p.selects, s, env, x);
      RevsAreMax(k, all'', t, p.implies, s, env, x);
    }
  }

  /** Direct dependencies are the maximum over the nodes of the symbol, and reverse
      dependencies the maximum over all selects (or implies) of the symbol, of the
      selecting symbol's value limited by the condition. */
  lemma {:induction false} DependenciesAreMax<N>(k: Config, n: nat, es: seq<Entry<N>>, s: nat, env: Env, x: Tri)
    requires s < n && forall i :: 0 <= i < |es| && es[i].props.item.SymNode? ==> es[i].props.item.s < n
    ensures var d := Collected(n, es)[s];
            && (x <= Value(k, d.directDep, env) <==> x == 0 || Supported(k, es, s, env, x))
            && (x <= Value(k, d.revDep, env) <==> x == 0 || Selected(k, es, s, env, x))
            && (x <= Value(k, d.weakRevDep, env) <==> x == 0 || Implied(k, es, s, env, x))
  {
    if es == [] {
      NValue(k, env);
    } else {
      hide Value, AddProps, Contributes;
      var before, p := es[..|es| - 1], es[|es| - 1].props;
      DependenciesAreMax(k, n, before, s, env, x);
      AddPropsIsMax(k, Collected(n, before), p, s, env, x);
      assert forall i :: 0 <= i < |before| ==> before[i] == es[i];
    }
  }

  lemma NValue(k: Config, env: Env)
    ensures Value(k, N, env) == 0
  {
  }

  // Prompts imply direct dependencies

  /** The symbols are as finalization leaves them. */
  ghost predicate BuiltFrom<N>(k: Config, es: seq<Entry<N>>) {
    && (forall i :: 0 <= i < |es| && es[i].props.item.SymNode? ==> es[i].props.item.s < |k.syms|)
    && forall s :: 0 <= s < |k.syms| ==> SymbolBuilt(k, es, s)
  }

  ghost predicate SymbolBuilt<N>(k: Config, es: seq<Entry<N>>, s: nat)
    requires s < |k.syms|
  {
    var d, l, x := Collected(|k.syms|, es)[s], ListsOf(es, s), k.syms[s];
    && x.prompts == l.prompts && x.defaults == l.defaults && x.ranges == l.ranges
    && x.directDep == d.directDep && x.revDep == d.revDep && x.weakRevDep == d.weakRevDep
  }

  lemma {:induction false} BuiltSymbol<N>(k: Config, es: seq<Entry<N>>, s: nat)
    requires BuiltFrom(k, es) && s < |k.syms|
    ensures k.Sym(s).prompts == ListsOf(es, s).prompts && k.Sym(s).directDep == Collected(|k.syms|, es)[s].directDep
    ensures forall i :: 0 <= i < |es| && es[i].props.item.SymNode? ==> es[i].props.item.s < |k.syms|
  {
    hide Collected, ListsOf;
    assert SymbolBuilt(k, es, s);
  }

  lemma {:induction false} PromptOfNode<N>(es: seq<Entry<N>>, s: nat, e: Expr)
    requires e in ListsOf(es, s).prompts
    ensures exists i :: 0 <= i < |es| && es[i].props.item == SymNode(s) && es[i].props.prompt == Some(e)
  {
    if es[0].props.item == SymNode(s) && es[0].props.prompt == Some(e) {
    } else {
      PromptOfNode(es[1..], s, e);
      var i :| 0 <= i < |es[1..]| && es[1..][i].props.item == SymNode(s) && es[1..][i].props.prompt == Some(e);
      assert es[i + 1] == es[1..][i];
    }
  }

  lemma {:induction false} PromptsBelow(k: Config, ps: seq<Expr>, n: nat, env: Env, x: Tri)
    requires n <= |ps| && forall e :: e in ps ==> Value(k, e, env) <= x
    ensures PromptsOut(k, ps, n, env).v <= x
  {
    if n == 0 {
    } else {
      PromptsBelow(k, ps, n - 1, env, x);
      assert Value(k, ps[n - 1], env) <= x;
    }
  }

  /** The prompt of a node holds at most as far as the dependency of the node, ... */
  lemma {:induction false} NodePromptBelow<N>(k: Config, top: Tree<N>, i: nat, env: Env)
    requires Parsed([top]) && !top.props.item.SymNode? && i < |Finalize(top, [], Y).order|
    ensures var p := Finalize(top, [], Y).order[i].props;
            p.item.SymNode? && p.prompt.Some? ==> Value(k, p.prompt.value, env) <= Value(k, p.dep, env)
  {
    hide Finalize, Parsed, Effective, Value;
    var p := Finalize(top, [], Y).order[i].props;
    var locations := Locations([top], []);
    EveryNodeOnce(top);
    assert Agrees(Finalize(top, [], Y).order[i], locations[i]);
    if p.item.SymNode? && p.prompt.Some? {
      var path := locations[i].path;
      TopIsAlone(top, i);
      EffectivePrompt(path);
      PromptIsMin(k, path, env, Value(k, p.prompt.value, env));
    }
  }

  /** ... and so as far as the direct dependency of the symbol. */
  lemma {:induction false} SymbolPromptBelow<N>(k: Config, top: Tree<N>, s: nat, e: Expr, env: Env)
    requires Parsed([top]) && !top.props.item.SymNode? && s < |k.syms| && BuiltFrom(k, Finalize(top, [], Y).order)
    requires e in k.Sym(s).prompts
    ensures Value(k, e, env) <= Value(k, k.Sym(s).directDep, env)
  {
    hide Collected, ListsOf, Finalize, Parsed, Value, BuiltFrom, Selected, Implied;
    var es := Finalize(top, [], Y).order;
    BuiltSymbol(k, es, s);
    PromptOfNode(es, s, e);
    var i :| 0 <= i < |es| && es[i].props.item == SymNode(s) && es[i].props.prompt == Some(e);
    NodePromptBelow(k, top, i, env);
    DependenciesAreMax(k, |k.syms|, es, s, env, Value(k, e, env));
  }

  /** A symbol is visible at most as far as its direct dependencies hold. */
  lemma {:induction false} PromptsAreGuarded<N>(k: Config, top: Tree<N>, s: nat, env: Env)
    requires Parsed([top]) && !top.props.item.SymNode? && s < |k.syms| && BuiltFrom(k, Finalize(top, [], Y).order)
    ensures PromptsOut(k, k.Sym(s).prompts, |k.Sym(s).prompts|, env).v <= ExprOut(k, k.Sym(s).directDep, env).v
  {
    hide Finalize, Parsed, ExprOut, PromptsOut, BuiltFrom;
    var d := k.Sym(s);
    forall e | e in d.prompts ensures Value(k, e, env) <= Value(k, d.directDep, env) {
      SymbolPromptBelow(k, top, s, e, env);
    }
    PromptsBelow(k, d.prompts, |d.prompts|, env, Value(k, d.directDep, env));
  }

  lemma EffectivePrompt(path: seq<Props>)
    requires path != []
    ensures Effective(path).item == path[|path| - 1].item
    ensures Effective(path).prompt.Some? <==> path[|path| - 1].prompt.Some?
  {
  }

  lemma {:induction false} TopIsAlone<N>(top: Tree<N>, i: nat)
    requires i < |Locations([top], [])|
    ensures var path := Locations([top], [])[i].path;
            path != [] && (|path| == 1 ==> path == [top.props])
  {
    assert [top][1..] == [];
    assert [] + [top.props] == [top.props];
    var below := Locations(top.kids, [top.props]);
    assert Locations([top], []) == [Located(top.node, [top.props])] + below;
  }
}
