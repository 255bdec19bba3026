/** Configurations that pass the loop check although evaluation does not terminate: one for each
    of the conditions under which the check is enough. */
module MissedLoops {
  import opened Wrappers
  import opened Expressions
  import opened Evaluation
  import opened Semantics
  import opened Dependencies
  import opened LoopSearch
  import opened LoopCompleteness
  import opened LoopExactness
  import opened Termination

  // Steps of the search

  lemma NoCalls(g: Graph, st: State, call: Call)
    requires st.ColorOf(call.Target()).Unvisited? && Calls(g, call) == []
    ensures Check(g, st, call) == Found(NoLoop, st.Enter(call.Target()).Leave(call.Target()))
  {
  }

  lemma OneCall(g: Graph, st: State, call: Call, inner: Call, st1: State)
    requires st.ColorOf(call.Target()).Unvisited? && Calls(g, call) == [inner]
    requires Check(g, st.Enter(call.Target()), inner) == Found(NoLoop, st1)
    ensures Check(g, st, call) == Found(NoLoop, st1.Leave(call.Target()))
  {
    hide Calls;
    var it := call.Target();
    assert CheckEach(g, st.Enter(it), it, [inner]) == CheckEach(g, st1, it, [inner][1..]);
  }

  lemma TwoCalls(g: Graph, st: State, call: Call, inner: seq<Call>, st1: State, st2: State)
    requires st.ColorOf(call.Target()).Unvisited? && |inner| == 2 && Calls(g, call) == inner
    requires Check(g, st.Enter(call.Target()), inner[0]) == Found(NoLoop, st1)
    requires Check(g, st1, inner[1]) == Found(NoLoop, st2)
    ensures Check(g, st, call) == Found(NoLoop, st2.Leave(call.Target()))
  {
    hide Calls;
    var it := call.Target();
    assert CheckEach(g, st.Enter(it), it, inner) == CheckEach(g, st1, it, inner[1..]);
    assert CheckEach(g, st1, it, inner[1..]) == CheckEach(g, st2, it, inner[1..][1..]);
  }

  lemma {:induction false} NothingLeft(g: Graph, st: State, s: nat)
    requires s <= |g.k.syms| && forall t :: s <= t < |g.k.syms| ==> st.ColorOf(SymItem(t)).Checked?
    ensures CheckFrom(g, st, s) == Found(NoLoop, st)
    decreases |g.k.syms| - s
  {
    if s == |g.k.syms| {
    } else {
      assert Check(g, st, SymCall(s, false)) == Found(NoLoop, st);
      NothingLeft(g, st, s + 1);
    }
  }

  lemma ShortLists()
    ensures RangeExprs([]) == [] && DefaultExprs([]) == [] && RangeConds([]) == []
    ensures forall e, c :: DefaultExprs([Default(e, c)]) == [c, e]
  {
  }

  /** What is mentioned in a short list of expressions. */
  lemma ListMentions(es: seq<Expr>, j: Item)
    ensures Mentions(es, j) <==> exists i :: 0 <= i < |es| && j in ExprItems(es[i])
  {
    if Mentions(es, j) {
      var e :| e in es && j in ExprItems(e);
      var i :| 0 <= i < |es| && es[i] == e;
    }
    forall i | 0 <= i < |es| && j in ExprItems(es[i]) ensures Mentions(es, j) { assert es[i] in es; }
  }

  lemma ReadIn(e: Expr, es: seq<Expr>, r: Slot)
    requires e in es && r in ExprSlots(e)
    ensures r in ExprsSlots(es)
  {
  }

  // A symbol of a choice leads to an earlier one

  /** A choice of A, B and C, where B depends on X, and X outside of it has 'default y if C'. */
  const BACKWARD := Config(
    [Symbol("A", Bool, [Expr.Mode(0)], [], [], N, N, Expr.Mode(0), Some(0), false),
     Symbol("B", Bool, [B_DEP], [], [], N, N, B_DEP, Some(0), false),
     Symbol("C", Bool, [Expr.Mode(0)], [], [], N, N, Expr.Mode(0), Some(0), false),
     Symbol("X", Bool, [], [Default(Y, Leaf(Sym(2)))], [], N, N, Y, None, false)],
    [Choice(Bool, false, [Y], [], [0, 1, 2])], None)
  const B_DEP := And(Leaf(Sym(3)), Expr.Mode(0))

  const BACKWARD_GRAPH := Graph(BACKWARD, map[
    SymItem(0) := [], SymItem(1) := [], SymItem(2) := [SymItem(3)], SymItem(3) := [SymItem(1)],
    ChItem(0) := [SymItem(0), SymItem(1), SymItem(2)]])

  lemma BackwardMentions(i: Item, j: Item)
    ensures Mentions(ItemExprs(BACKWARD, i), j) <==>
              || (i in {SymItem(0), SymItem(1), SymItem(2)} && j == ChItem(0))
              || (i == SymItem(1) && j == SymItem(3))
              || (i == SymItem(3) && j == SymItem(2))
  {
    hide RangeExprs, DefaultExprs, Mentions;
    ShortLists();
    var es := ItemExprs(BACKWARD, i);
    ListMentions(es, j);
    if i.SymItem? {
      var d := BACKWARD.Sym(i.s);
      if i.s >= 4 { assert d == NO_SYMBOL; }
      if i.s == 3 { assert es == [Leaf(Sym(2)), Y, N, N, Y]; } else if i.s < 3 { assert es == [d.directDep, N, N, d.directDep]; }
      assert i.s < 4 ==> j in ExprItems(es[0]) || j !in ExprItems(d.directDep);
    } else if i.c == 0 {
      assert es == [Y];
    }
  }

  lemma BackwardItems()
    ensures AllItems(BACKWARD) == {SymItem(0), SymItem(1), SymItem(2), SymItem(3), ChItem(0)}
    ensures (forall c: nat :: c != 0 ==> BACKWARD.Choice(c) == NO_CHOICE)
            && (forall s: nat :: s >= 4 ==> BACKWARD.Sym(s) == NO_SYMBOL)
  {
  }

  lemma BackwardIsArranged()
    ensures Arranged(BACKWARD_GRAPH)
  {
    hide ItemExprs, Mentions, AllItems;
    forall i, j { BackwardMentions(i, j); }
    BackwardItems();
  }

  lemma BackwardIsFine()
    ensures WellFormed(BACKWARD) && Paired(BACKWARD) && NestedOk(BACKWARD)
  {
    hide ItemExprs, Mentions, AllItems;
    forall i, j { BackwardMentions(i, j); }
    BackwardItems();
  }

  /** X leads to B, which has been checked, and C leads to X. */
  lemma BackwardLater(st: State)
    requires st.ColorOf(SymItem(1)).Checked? && st.ColorOf(SymItem(2)).Unvisited? && st.ColorOf(SymItem(3)).Unvisited?
    ensures Check(BACKWARD_GRAPH, st, SymCall(2, true))
            == Found(NoLoop, st.Enter(SymItem(2)).Enter(SymItem(3)).Leave(SymItem(3)).Leave(SymItem(2)))
  {
    hide Check, Calls;
    var g, c, x := BACKWARD_GRAPH, SymItem(2), SymItem(3);
    var inX := st.Enter(c).Enter(x);
    BackwardCalls();
    CheckedNow(g, inX, SymCall(1, false));
    OneCall(g, st.Enter(c), SymCall(3, false), SymCall(1, false), inX);
    OneCall(g, st, SymCall(2, true), SymCall(3, false), inX.Leave(x));
  }

  /** A visits its choice, which visits B, without a dependent, and then C. */
  lemma BackwardFirst(st: State)
    requires (forall s :: 0 <= s < 4 ==> st.ColorOf(SymItem(s)).Unvisited?) && st.ColorOf(ChItem(0)).Unvisited?
    ensures var a := Check(BACKWARD_GRAPH, st, SymCall(0, false));
            a.r == NoLoop && forall s :: 0 <= s < 4 ==> a.st.ColorOf(SymItem(s)).Checked?
  {
    hide Check, Calls;
    var g, a, b, ch := BACKWARD_GRAPH, SymItem(0), SymItem(1), ChItem(0);
    var inB := st.Enter(a).Enter(ch);
    var outB := inB.Enter(b).Leave(b);
    BackwardCalls();
    NoCalls(g, inB, SymCall(1, true));
    BackwardLater(outB);
    var outC := outB.Enter(SymItem(2)).Enter(SymItem(3)).Leave(SymItem(3)).Leave(SymItem(2));
    TwoCalls(g, st.Enter(a), ChCall(0, Some(0)), [SymCall(1, true), SymCall(2, true)], outB, outC);
    OneCall(g, st, SymCall(0, false), ChCall(0, Some(0)), outC.Leave(ch));
  }

  lemma BackwardPasses()
    ensures CheckFrom(BACKWARD_GRAPH, Start(BACKWARD), 0).r == NoLoop
  {
    hide Check;
    var g, st := BACKWARD_GRAPH, Start(BACKWARD);
    BackwardFirst(st);
    var end := Check(g, st, SymCall(0, false)).st;
    assert CheckFrom(g, st, 0) == CheckFrom(g, end, 1);
    NothingLeft(g, end, 1);
  }

  lemma BackwardCalls()
    ensures var g := BACKWARD_GRAPH;
            && Calls(g, SymCall(0, false)) == [ChCall(0, Some(0))]
            && Calls(g, ChCall(0, Some(0))) == [SymCall(1, true), SymCall(2, true)]
            && Calls(g, SymCall(1, true)) == [] && Calls(g, SymCall(2, true)) == [SymCall(3, false)]
            && Calls(g, SymCall(3, false)) == [SymCall(1, false)]
  {
    assert [0, 1, 2][1..] == [1, 2] && [1, 2][1..] == [2] && [2][1..] == [];
    assert MemberCalls([2], Some(0)) == [SymCall(2, true)];
  }

  lemma CheckedNow(g: Graph, st: State, call: Call)
    requires st.ColorOf(call.Target()).Checked?
    ensures Check(g, st, call) == Found(NoLoop, st)
  {
  }

  /** The loop C, X, B that the check misses: C leads back to B. */
  lemma BackwardLeadsBack()
    ensures LeadsBack(BACKWARD_GRAPH, 0)
  {
    var g := BACKWARD_GRAPH;
    var p := [SymItem(1), SymItem(3), SymItem(2)];
    assert g.Deps(SymItem(2)) == [SymItem(3)] && g.Deps(SymItem(3)) == [SymItem(1)];
    assert SymItem(3) in g.Deps(SymItem(2)) && SymItem(1) in g.Deps(SymItem(3));
    assert Path(g, p);
    var syms := g.k.Choice(0).syms;
    assert Leads(g, 0, SymItem(syms[2]), SymItem(syms[1]));
  }

  /** If B is the user selection, and the other symbols are visible, then the selection is found
      by reading the visibility of B, for which X is read, and for X the value of C, and for C
      the selection. */
  lemma BackwardGoesRound(u: Input, env: Env)
    requires u.Sel(0) == Some(1) && GetTri(env, ChMode(0)) == 2
    requires GetTri(env, SymVis(2)) == 2 && GetTri(env, SymVis(3)) == 0
    ensures SymVis(1) in Step(BACKWARD, u, ChSel(0), env).rd && SymTri(3) in Step(BACKWARD, u, SymVis(1), env).rd
    ensures SymTri(2) in Step(BACKWARD, u, SymTri(3), env).rd && ChSel(0) in Step(BACKWARD, u, SymTri(2), env).rd
  {
    var k := BACKWARD;
    assert k.Sym(1).prompts == [B_DEP] && k.Sym(2).choice == Some(0);
    assert SymTri(3) in ExprOut(k, Leaf(Sym(3)), env).rd && SymTri(3) in ExprOut(k, B_DEP, env).rd;
    assert PromptsOut(k, [B_DEP], 1, env).rd == ExprOut(k, B_DEP, env).rd;
    assert DefaultConds(k.Sym(3).defaults) == [Leaf(Sym(2))];
  }

  lemma BackwardIsUnranked(rk: Rank)
    ensures !Ranked(BACKWARD, rk)
  {
    var k := BACKWARD;
    assert SymVis(1) in StaticReads(k, ChSel(0)) by { assert 1 in k.Choice(0).syms; }
    assert SymTri(3) in StaticReads(k, SymVis(1)) by {
      assert SymTri(3) in ExprSlots(Leaf(Sym(3))) && B_DEP in k.Sym(1).prompts;
      ReadIn(B_DEP, k.Sym(1).prompts, SymTri(3));
    }
    assert SymTri(2) in StaticReads(k, SymTri(3)) by {
      var es := DefaultExprs(k.Sym(3).defaults) + [k.Sym(3).weakRevDep, k.Sym(3).directDep, k.Sym(3).revDep];
      assert es[0] == Leaf(Sym(2)) && es[0] in es;
      ReadIn(es[0], es, SymTri(2));
    }
    assert ChSel(0) in StaticReads(k, SymTri(2));
  }

  /** The check passes, but there is a loop, and evaluation does not terminate. */
  lemma BackwardLoopIsMissed()
    ensures var g := BACKWARD_GRAPH;
            && Arranged(g) && WellFormed(g.k) && Paired(g.k) && NestedOk(g.k) && (exists apart :: ModulesApart(g.k, apart))
            && CheckFrom(g, Start(g.k), 0).r == NoLoop && (exists loop :: Loop(g, loop))
            && !exists rk: Rank :: Ranked(g.k, rk)
  {
    hide CheckFrom, Arranged, WellFormed, Paired, NestedOk, Loop, Ranked;
    BackwardIsArranged();
    BackwardIsFine();
    assert ModulesApart(BACKWARD, {});
    BackwardPasses();
    BackwardLeadsBack();
    var loop := WayBackIsLoop(BACKWARD_GRAPH, 0);
    forall rk: Rank ensures !Ranked(BACKWARD, rk) { BackwardIsUnranked(rk); }
  }

  // Something other than a symbol of a choice depends on its mode alone

  /** A choice whose prompt depends on X, with a symbol A and a menu with X inside. */
  const NESTED := Config(
    [Symbol("A", Bool, [Expr.Mode(0)], [], [], N, N, Expr.Mode(0), Some(0), false),
     Symbol("X", Bool, [Expr.Mode(0)], [], [], N, N, Expr.Mode(0), None, false)],
    [Choice(Bool, false, [Leaf(Sym(1))], [], [0])], None)

  const NESTED_GRAPH := Graph(NESTED, map[
    SymItem(0) := [], SymItem(1) := [ChItem(0)], ChItem(0) := [SymItem(0), SymItem(1)]])

  lemma NestedMentions(i: Item, j: Item)
    ensures Mentions(ItemExprs(NESTED, i), j) <==>
              (i in {SymItem(0), SymItem(1)} && j == ChItem(0)) || (i == ChItem(0) && j == SymItem(1))
  {
    hide RangeExprs, DefaultExprs, Mentions;
    ShortLists();
    var es := ItemExprs(NESTED, i);
    ListMentions(es, j);
    if i.SymItem? {
      if i.s >= 2 { assert NESTED.Sym(i.s) == NO_SYMBOL; } else { assert es == [Expr.Mode(0), N, N, Expr.Mode(0)]; }
      assert i.s < 2 ==> j in ExprItems(es[0]) || j != ChItem(0);
    } else if i.c == 0 {
      assert es == [Leaf(Sym(1))];
      assert j in ExprItems(es[0]) || j != SymItem(1);
    }
  }

  lemma NestedIsFine()
    ensures Arranged(NESTED_GRAPH) && WellFormed(NESTED) && Paired(NESTED) && NoWayBack(NESTED_GRAPH)
  {
    hide ItemExprs, Mentions, Path;
    var k := NESTED;
    forall i, j { NestedMentions(i, j); }
    assert forall c: nat :: c != 0 ==> k.Choice(c) == NO_CHOICE;
    assert forall s: nat :: s >= 2 ==> k.Sym(s) == NO_SYMBOL;
    assert AllItems(k) == {SymItem(0), SymItem(1), ChItem(0)};
  }

  /** Dependents of a choice are not visited: only its symbols are. */
  lemma NestedPasses()
    ensures CheckFrom(NESTED_GRAPH, Start(NESTED), 0).r == NoLoop
  {
    hide Check;
    var g, st := NESTED_GRAPH, Start(NESTED);
    var a, x, ch := SymItem(0), SymItem(1), ChItem(0);
    assert Calls(g, ChCall(0, Some(0))) == [] by { assert [0][1..] == []; }
    NoCalls(g, st.Enter(a), ChCall(0, Some(0)));
    assert Calls(g, SymCall(0, false)) == [ChCall(0, Some(0))];
    OneCall(g, st, SymCall(0, false), ChCall(0, Some(0)), st.Enter(a).Enter(ch).Leave(ch));
    var out := st.Enter(a).Enter(ch).Leave(ch).Leave(a);
    assert CheckFrom(g, st, 0) == CheckFrom(g, out, 1);
    CheckedNow(g, out.Enter(x), ChCall(0, None));
    assert Calls(g, SymCall(1, false)) == [ChCall(0, None)];
    OneCall(g, out, SymCall(1, false), ChCall(0, None), out.Enter(x));
    var end := out.Enter(x).Leave(x);
    assert CheckFrom(g, out, 1) == CheckFrom(g, end, 2);
    NothingLeft(g, end, 2);
  }

  lemma NestedIsUnranked(rk: Rank)
    ensures !Ranked(NESTED, rk)
  {
    var k := NESTED;
    ReadIn(Leaf(Sym(1)), k.Choice(0).prompts, SymTri(1));
    assert SymTri(1) in StaticReads(k, ChVis(0));
    assert SymVis(1) in StaticReads(k, SymTri(1));
    ReadIn(Expr.Mode(0), k.Sym(1).prompts, ChMode(0));
    assert ChMode(0) in StaticReads(k, SymVis(1));
    assert ChVis(0) in StaticReads(k, ChMode(0));
  }

  /** The check passes, but the visibility of the choice is read for X, and X for the visibility. */
  lemma NestedLoopIsMissed()
    ensures var g := NESTED_GRAPH;
            && Arranged(g) && WellFormed(g.k) && Paired(g.k) && NoWayBack(g) && (exists apart :: ModulesApart(g.k, apart))
            && CheckFrom(g, Start(g.k), 0).r == NoLoop && !exists rk: Rank :: Ranked(g.k, rk)
  {
    hide CheckFrom, Arranged, WellFormed, Paired, NoWayBack, Ranked;
    NestedIsFine();
    assert ModulesApart(NESTED, {});
    NestedPasses();
    forall rk: Rank ensures !Ranked(NESTED, rk) { NestedIsUnranked(rk); }
  }

  // The type of a tristate symbol depends on MODULES

  /** MODULES has 'default y if T', and T is tristate. */
  const UNTYPED := Config(
    [Symbol("MODULES", Bool, [], [Default(Y, Leaf(Sym(1)))], [], N, N, Y, None, false),
     Symbol("T", Tristate, [Y], [], [], N, N, Y, None, false)], [], Some(0))

  const UNTYPED_GRAPH := Graph(UNTYPED, map[SymItem(0) := [], SymItem(1) := [SymItem(0)]])

  lemma UntypedMentions(i: Item, j: Item)
    ensures Mentions(ItemExprs(UNTYPED, i), j) <==> i == SymItem(0) && j == SymItem(1)
  {
    hide RangeExprs, DefaultExprs, Mentions;
    ShortLists();
    var es := ItemExprs(UNTYPED, i);
    ListMentions(es, j);
    if i == SymItem(0) {
      assert es == [Leaf(Sym(1)), Y, N, N, Y];
      assert j in ExprItems(es[0]) || j != SymItem(1);
    } else if i == SymItem(1) {
      assert es == [Y, N, N, Y];
    } else {
      assert i.SymItem? ==> UNTYPED.Sym(i.s) == NO_SYMBOL;
    }
  }

  lemma UntypedIsFine()
    ensures Arranged(UNTYPED_GRAPH) && WellFormed(UNTYPED) && Paired(UNTYPED) && NestedOk(UNTYPED)
  {
    hide ItemExprs, Mentions;
    var k := UNTYPED;
    forall i, j { UntypedMentions(i, j); }
    assert forall c: nat :: k.Choice(c) == NO_CHOICE;
    assert forall s: nat :: s >= 2 ==> k.Sym(s) == NO_SYMBOL;
    assert AllItems(k) == {SymItem(0), SymItem(1)};
  }

  lemma UntypedPasses()
    ensures CheckFrom(UNTYPED_GRAPH, Start(UNTYPED), 0).r == NoLoop
  {
    hide Check;
    var g, st := UNTYPED_GRAPH, Start(UNTYPED);
    var out := st.Enter(SymItem(0)).Leave(SymItem(0));
    NoCalls(g, st, SymCall(0, false));
    assert CheckFrom(g, st, 0) == CheckFrom(g, out, 1);
    CheckedNow(g, out.Enter(SymItem(1)), SymCall(0, false));
    assert Calls(g, SymCall(1, false)) == [SymCall(0, false)];
    OneCall(g, out, SymCall(1, false), SymCall(0, false), out.Enter(SymItem(1)));
    var end := out.Enter(SymItem(1)).Leave(SymItem(1));
    assert CheckFrom(g, out, 1) == CheckFrom(g, end, 2);
    NothingLeft(g, end, 2);
  }

  lemma UntypedIsUnranked(rk: Rank)
    ensures !Ranked(UNTYPED, rk)
  {
    var k := UNTYPED;
    assert SymTri(1) in StaticReads(k, SymTri(0)) by {
      var es := DefaultExprs(k.Sym(0).defaults) + [k.Sym(0).weakRevDep, k.Sym(0).directDep, k.Sym(0).revDep];
      assert es[0] == Leaf(Sym(1)) && es[0] in es;
      ReadIn(es[0], es, SymTri(1));
    }
    assert SymVis(1) in StaticReads(k, SymTri(1));
    assert SymTri(0) in StaticReads(k, SymVis(1));
  }

  /** The check passes, but MODULES is read for the type of T, and T for MODULES. */
  lemma ModulesLoopIsMissed()
    ensures var g := UNTYPED_GRAPH;
            && Arranged(g) && WellFormed(g.k) && Paired(g.k) && NestedOk(g.k) && NoWayBack(g)
            && CheckFrom(g, Start(g.k), 0).r == NoLoop && !exists rk: Rank :: Ranked(g.k, rk)
  {
    hide CheckFrom, Arranged, WellFormed, Paired, NestedOk, Ranked;
    UntypedIsFine();
    UntypedPasses();
    forall rk: Rank ensures !Ranked(UNTYPED, rk) { UntypedIsUnranked(rk); }
  }
}
