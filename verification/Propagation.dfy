/** What the conditions of a finalized menu node mean: the minimum of its own condition and
    what the nodes around it contribute, and for the properties collected on symbols the
    maximum over all menu nodes. */
module Propagation {
  import opened Wrappers
  import opened Tristate
  import opened Expressions
  import opened Evaluation
  import opened MenuTree
  import opened MenuOrder
  import opened ValueLaws

  function Value(k: Config, e: Expr, env: Env): Tri {
    ExprOut(k, e, env).v
  }

  lemma AndIsMin(k: Config, a: Expr, b: Expr, env: Env)
    ensures Value(k, MakeAnd(a, b), env) == Min(Value(k, a, env), Value(k, b, env))
  {
  }

  lemma OrIsMax(k: Config, a: Expr, b: Expr, env: Env)
    ensures Value(k, MakeOr(a, b), env) == Max(Value(k, a, env), Value(k, b, env))
  {
  }

  // Where a node is in the parsed tree

  /** A node with the properties, as parsed, of the nodes around it from the top on, and
      last its own. */
  datatype Located<N> = Located(node: N, path: seq<Props>)

  function Locations<N>(ts: seq<Tree<N>>, above: seq<Props>): (r: seq<Located<N>>)
    ensures forall i :: 0 <= i < |r| ==> |above| < |r[i].path| && above <= r[i].path
  {
    if ts == [] then [] else
    var path := above + [ts[0].props];
    var below := Locations(ts[0].kids, path);
    assert forall i :: 0 <= i < |below| ==> path <= below[i].path && above <= path;
    [Located(ts[0].node, path)] + (below + Locations(ts[1..], above))
  }

  /** The 'visible if' condition that reaches the children of the last node. */
  function VisibleBelow(path: seq<Props>): Expr {
    if path == [] then Y else VisibleIf(path[|path| - 1], VisibleBelow(path[..|path| - 1]))
  }

  /** The properties of the last node once everything is propagated. */
  function Effective(path: seq<Props>): Props
    requires path != []
  {
    var own, above := path[|path| - 1], path[..|path| - 1];
    if above == [] then own else Propagated(own, BaseDep(Effective(above)), VisibleBelow(above))
  }

  ghost predicate Agrees<N>(e: Entry<N>, l: Located<N>) {
    e.node == l.node && l.path != [] && e.props == Effective(l.path)
  }

  ghost predicate AllAgree<N>(es: seq<Entry<N>>, ls: seq<Located<N>>) {
    |es| == |ls| && forall i :: 0 <= i < |es| ==> Agrees(es[i], ls[i])
  }

  lemma {:induction false} AnnotatedAgrees<N>(ts: seq<Tree<N>>, above: seq<Props>)
    requires above != []
    ensures var vis := VisibleBelow(above);
            AllAgree(Entries(Annotated(PropagatedAll(ts, BaseDep(Effective(above)), vis), vis)), Locations(ts, above))
    decreases Size(ts)
  {
    hide Propagated, AllAgree, BaseDep, VisibleIf;
    if ts == [] {
      AgreeNone<N>();
    } else {
      var vis, base := VisibleBelow(above), BaseDep(Effective(above));
      var path := above + [ts[0].props];
      assert path[..|path| - 1] == above;
      PropagatedItem(ts[0].props, base, vis);
      AnnotatedAgrees(ts[0].kids, path);
      AnnotatedAgrees(ts[1..], above);
      var below := PropagatedAll(ts[0].kids, BaseDep(Effective(path)), VisibleBelow(path));
      AgreeMore(Entry(ts[0].node, Effective(path)), Located(ts[0].node, path),
                Entries(Annotated(below, VisibleBelow(path))), Locations(ts[0].kids, path),
                Entries(Annotated(PropagatedAll(ts[1..], base, vis), vis)), Locations(ts[1..], above));
      var t := ts[0].(props := Effective(path));
      assert PropagatedAll(ts, base, vis) == [t] + PropagatedAll(ts[1..], base, vis);
    }
  }

  lemma AgreeNone<N>()
    ensures AllAgree<N>([], [])
  {
  }

  lemma AgreeMore<N>(e: Entry<N>, l: Located<N>, es: seq<Entry<N>>, ls: seq<Located<N>>, es': seq<Entry<N>>, ls': seq<Located<N>>)
    requires Agrees(e, l) && AllAgree(es, ls) && AllAgree(es', ls')
    ensures AllAgree([e] + (es + es'), [l] + (ls + ls'))
  {
  }

  lemma PropagatedItem(p: Props, base: Expr, visibleIf: Expr)
    ensures Propagated(p, base, visibleIf).item == p.item && Propagated(p, base, visibleIf).visibility == p.visibility
    ensures forall v :: VisibleIf(Propagated(p, base, visibleIf), v) == VisibleIf(p, v)
  {
  }

  /** Finalizing the top node goes over the nodes of the parsed tree in definition order,
      each once, and finds each with what is propagated to it from the nodes around it. */
  lemma {:induction false} EveryNodeOnce<N>(top: Tree<N>)
    requires Parsed([top]) && !top.props.item.SymNode?
    ensures var f := Finalize(top, [], Y);
            && AllAgree(f.order, Locations([top], []))
            && NonIfs(Entries([f.tree])) == NonIfs(f.order) && NoIfs(f.tree.kids)
  {
    hide Entries, Annotated, AllAgree, Finalize, NonIfs, NoIfs, PropagatedAll;
    var path := [top.props];
    FinalizeKeeps(top, [], Y);
    AnnotatedAgrees(top.kids, path);
    assert path[..0] == [] && [top] + [] == [top] && [top][..1] == [top] && [] + path == path;
    AnnotatedEntries(top, Y);
    AgreeNone<N>();
    var below := PropagatedAll(top.kids, BaseDep(top.props), VisibleBelow(path));
    AgreeMore(Entry(top.node, top.props), Located(top.node, path), Entries(Annotated(below, VisibleBelow(path))),
              Locations(top.kids, path), [], []);
    assert forall x: seq<Entry<N>> {:trigger x + []} :: x + [] == x;
    assert forall x: seq<Located<N>> {:trigger x + []} :: x + [] == x;
  }

  // The meaning of a single condition

  /** The dependencies of node 'i' reach the last node, unless a choice stands between. */
  ghost predicate Governs(path: seq<Props>, i: nat) {
    i < |path| && forall j :: i <= j < |path| - 1 ==> !path[j].item.ChoiceNode?
  }

  /** The choice at 'i' is the innermost one around the last node. */
  ghost predicate Inside(path: seq<Props>, i: nat) {
    i < |path| - 1 && path[i].item.ChoiceNode? && forall j :: i < j < |path| - 1 ==> !path[j].item.ChoiceNode?
  }

  ghost predicate DepsReach(k: Config, path: seq<Props>, env: Env, x: Tri) {
    forall i: nat :: Governs(path, i) ==> x <= Value(k, path[i].dep, env)
  }

  ghost predicate ModeReaches(path: seq<Props>, env: Env, x: Tri) {
    forall i: nat :: Inside(path, i) ==> x <= GetTri(env, ChMode(path[i].item.c))
  }

  /** The dependencies of a node are its own, those of the nodes around it up to the
      innermost choice, and the mode of that choice. */
  lemma {:induction false} DepIsMin(k: Config, path: seq<Props>, env: Env, x: Tri)
    requires path != []
    ensures x <= Value(k, Effective(path).dep, env) <==> DepsReach(k, path, env, x) && ModeReaches(path, env, x)
  {
    hide Value, Effective, Governs, Inside, MakeAnd;
    var n := |path| - 1;
    Reaching(path);
    if n == 0 {
      assert Effective(path) == path[0] by { EffectiveAlone(path); }
    } else {
      var above := path[..n];
      EffectiveDep(path);
      AndIsMin(k, path[n].dep, BaseDep(Effective(above)), env);
      if path[n - 1].item.ChoiceNode? {
        ModeValue(k, path[n - 1].item.c, env);
      } else {
        DepIsMin(k, above, env, x);
        assert forall i: nat :: i < n ==> above[i] == path[i];
        assert forall i: nat :: Governs(above, i) ==> Governs(path, i) && i < n;
        assert forall i: nat :: Inside(above, i) ==> Inside(path, i) && i < n;
      }
    }
  }

  lemma EffectiveAlone(path: seq<Props>)
    requires |path| == 1
    ensures Effective(path) == path[0]
  {
  }

  lemma EffectiveDep(path: seq<Props>)
    requires |path| > 1
    ensures var n := |path| - 1;
            && Effective(path).dep == MakeAnd(path[n].dep, BaseDep(Effective(path[..n])))
            && Effective(path[..n]).item == path[n - 1].item
  {
  }

  /** What reaches a node reaches it through the node around it. */
  lemma Reaching(path: seq<Props>)
    requires path != []
    ensures var n := |path| - 1;
            && Governs(path, n)
            && (forall i: nat :: (Governs(path[..n], i) ==> i < n) && (Inside(path[..n], i) ==> i < n))
            && (n == 0 ==> forall i: nat :: (Governs(path, i) ==> i == n) && !Inside(path, i))
            && (n > 0 && path[n - 1].item.ChoiceNode? ==>
                  Inside(path, n - 1) && forall i: nat :: (Governs(path, i) ==> i == n) && (Inside(path, i) ==> i == n - 1))
            && (n > 0 && !path[n - 1].item.ChoiceNode? ==>
                  forall i: nat ::
                    && (Governs(path, i) <==> i == n || Governs(path[..n], i))
                    && (Inside(path, i) <==> Inside(path[..n], i)))
  {
    var n := |path| - 1;
    forall i: nat ensures n > 0 && !path[n - 1].item.ChoiceNode? ==>
      (Governs(path, i) <==> i == n || Governs(path[..n], i)) && (Inside(path, i) <==> Inside(path[..n], i))
    {
      if n > 0 && !path[n - 1].item.ChoiceNode? {
        assert forall j :: 0 <= j < n - 1 ==> path[..n][j] == path[j];
      }
    }
  }

  lemma ModeValue(k: Config, c: nat, env: Env)
    ensures Value(k, Mode(c), env) == GetTri(env, ChMode(c))
  {
  }

  lemma EffectiveItem(path: seq<Props>)
    requires path != []
    ensures Effective(path).item == path[|path| - 1].item
  {
  }

  lemma {:induction false} VisibleIsMin(k: Config, path: seq<Props>, env: Env, x: Tri)
    ensures x <= Value(k, VisibleBelow(path), env) <==>
            forall i :: 0 <= i < |path| && path[i].item.Menu? ==> x <= Value(k, path[i].visibility, env)
  {
    if path == [] {
    } else {
      var n := |path| - 1;
      VisibleIsMin(k, path[..n], env, x);
      AndIsMin(k, VisibleBelow(path[..n]), path[n].visibility, env);
      assert forall i :: 0 <= i < n ==> path[..n][i] == path[i];
    }
  }

  /** The condition on the prompt of a symbol or choice: its own, its dependencies, and each
      'visible if' of the menus around it. Menus and comments are not subject to the latter. */
  lemma PromptIsMin(k: Config, path: seq<Props>, env: Env, x: Tri)
    requires |path| > 1 && path[|path| - 1].prompt.Some?
    ensures var own, p := path[|path| - 1], Effective(path);
            p.prompt.Some? &&
            (x <= Value(k, p.prompt.value, env) <==>
              && x <= Value(k, own.prompt.value, env)
              && x <= Value(k, p.dep, env)
              && (own.item.SymNode? || own.item.ChoiceNode? ==>
                    forall i :: 0 <= i < |path| - 1 && path[i].item.Menu? ==> x <= Value(k, path[i].visibility, env)))
  {
    hide Value;
    var n := |path| - 1;
    var own, p, vis := path[n], Effective(path), VisibleBelow(path[..n]);
    VisibleIsMin(k, path[..n], env, x);
    assert forall i :: 0 <= i < n ==> path[..n][i] == path[i];
    AndIsMin(k, vis, p.dep, env);
    AndIsMin(k, own.prompt.value, MakeAnd(vis, p.dep), env);
    AndIsMin(k, own.prompt.value, p.dep, env);
  }

  /** Defaults, ranges, selects and implies keep their order and their values or targets,
      and their conditions become subject to the dependencies, but to no 'visible if'. */
  lemma ConditionsAreMin(k: Config, path: seq<Props>, env: Env)
    requires |path| > 1 && (path[|path| - 1].item.SymNode? || path[|path| - 1].item.ChoiceNode?)
    ensures var own, p := path[|path| - 1], Effective(path);
            var dep := Value(k, p.dep, env);
            && |p.defaults| == |own.defaults| && |p.ranges| == |own.ranges|
            && |p.selects| == |own.selects| && |p.implies| == |own.implies|
            && (forall i :: 0 <= i < |p.defaults| ==>
                  && p.defaults[i].value == own.defaults[i].value
                  && Value(k, p.defaults[i].cond, env) == Min(Value(k, own.defaults[i].cond, env), dep))
            && (forall i :: 0 <= i < |p.ranges| ==>
                  && p.ranges[i].low == own.ranges[i].low && p.ranges[i].high == own.ranges[i].high
                  && Value(k, p.ranges[i].cond, env) == Min(Value(k, own.ranges[i].cond, env), dep))
            && (forall i :: 0 <= i < |p.selects| ==>
                  && p.selects[i].target == own.selects[i].target
                  && Value(k, p.selects[i].cond, env) == Min(Value(k, own.selects[i].cond, env), dep))
            && (forall i :: 0 <= i < |p.implies| ==>
                  && p.implies[i].target == own.implies[i].target
                  && Value(k, p.implies[i].cond, env) == Min(Value(k, own.implies[i].cond, env), dep))
  {
    hide Value, MakeAnd;
    forall e, d ensures Value(k, MakeAnd(e, d), env) == Min(Value(k, e, env), Value(k, d, env)) { AndIsMin(k, e, d, env); }
  }

  // What is limited by a choice

  lemma LimitedAnd(a: Expr, b: Expr, c: nat)
    requires Limited(a, c) || Limited(b, c)
    ensures Limited(MakeAnd(a, b), c)
  {
  }

  /** Inside a choice, the dependencies and the prompt mention the choice, or are n: their
      value is bounded by its mode. */
  lemma {:induction false} InsideIsLimited(path: seq<Props>, i: nat)
    requires Inside(path, i)
    ensures var p, c := Effective(path), path[i].item.c;
            Limited(p.dep, c) && (p.prompt.Some? ==> Limited(p.prompt.value, c))
  {
    var n := |path| - 1;
    var own, above, c := path[n], path[..n], path[i].item.c;
    EffectiveItem(above);
    var base := BaseDep(Effective(above));
    if i == n - 1 {
    } else {
      InsideIsLimited(above, i);
    }
    LimitedAnd(own.dep, base, c);
    var dep := MakeAnd(own.dep, base);
    if own.prompt.Some? {
      LimitedAnd(VisibleBelow(above), dep, c);
      LimitedAnd(own.prompt.value, dep, c);
      LimitedAnd(own.prompt.value, MakeAnd(VisibleBelow(above), dep), c);
    }
  }
}
