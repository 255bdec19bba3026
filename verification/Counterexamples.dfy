/** Configurations on which the documented behaviour fails: where the conditions of the exact
    statements do not hold. */
module Counterexamples {
  import opened Wrappers
  import opened Tristate
  import opened Expressions
  import opened Evaluation
  import opened Semantics
  import opened Dependencies
  import opened Inputs
  import opened ConfigText
  import opened Loading
  import opened RoundTrip
  import opened ValueLaws
  import opened Termination
  import opened MenuTree
  import opened MenuOrder
  import opened Collection

  /** A tristate symbol T with 'default y' under a prompt that is visible to m, a symbol S with
      'default m' that may select it, a symbol I with 'default y' that may imply it, and MODULES
      with 'default y'. The condition of the prompt is what 'if m' is parsed to. */
  function Modular(selected: bool, implied: bool): Config {
    Config([Symbol("T", Tristate, [T_PROMPT], [Default(Y, Y)], [], if selected then Leaf(Sym(1)) else N,
                   if implied then Leaf(Sym(2)) else N, Y, None, false),
            Symbol("S", Tristate, [], [Default(M, Y)], [], N, N, Y, None, false),
            Symbol("I", Bool, [], [Default(Y, Y)], [], N, N, Y, None, false),
            Symbol("MODULES", Bool, [], [Default(Y, Y)], [], N, N, Y, None, false)], [], Some(3))
  }

  const T_PROMPT := And(M, Leaf(Sym(3)))

  const MODULAR_RANK: Rank := (slot: Slot) =>
    (if slot.Owner() == SymItem(0) then 8 else if slot.Owner() == SymItem(1) then 4 else 0) + Kind(slot)

  // How finalization builds it

  /** The node of a symbol as it is parsed. */
  function SymbolNode(s: nat, prompt: Option<Expr>, value: Expr, selects: seq<Select>, implies: seq<Select>): Tree<nat> {
    Tree(s + 1, Props(SymNode(s), "", prompt, Y, Y, [Default(value, Y)], [], selects, implies), [])
  }

  function ModularNodes(selected: bool, implied: bool): seq<Tree<nat>> {
    [SymbolNode(0, Some(T_PROMPT), Y, [], []),
     SymbolNode(1, None, M, if selected then [Select(0, Y)] else [], []),
     SymbolNode(2, None, Y, [], if implied then [Select(0, Y)] else []),
     SymbolNode(3, None, Y, [], [])]
  }

  function ModularTop(selected: bool, implied: bool): Tree<nat> {
    Tree(0, Props(Menu, "Main menu", Some(Y), Y, Y, [], [], [], []), ModularNodes(selected, implied))
  }

  /** Symbols that do not depend on the one before them stay where they are. */
  lemma {:induction false} FlatOrder(ts: seq<Tree<nat>>)
    requires forall i :: 0 <= i < |ts| ==> ts[i].props.item.SymNode?
    requires forall i :: 0 <= i < |ts| - 1 ==> !AutoMenuDep(ts[i].props.item.s, ts[i + 1].props)
    ensures FinalizeAll(ts, Y).order == seq(|ts|, i requires 0 <= i < |ts| => Entry(ts[i].node, ts[i].props))
  {
    hide AutoMenuDep, Finalize, FinalizeAll;
    if ts == [] {
      FinalizeNone<nat>(Y);
    } else {
      FlatOrder(ts[1..]);
      FinalizeAllStep(ts, Y);
      StaysAlone(ts[0], ts[1..]);
      assert ts[1 + 0..] == ts[1..];
    }
  }

  lemma StaysAlone(t: Tree<nat>, rest: seq<Tree<nat>>)
    requires t.props.item.SymNode? && (rest == [] || !AutoMenuDep(t.props.item.s, rest[0].props))
    ensures Finalize(t, rest, Y).taken == 0 && Finalize(t, rest, Y).order == [Entry(t.node, t.props)]
  {
    hide AutoMenuDep, CleanLevel;
    SubmenuStops(t.props.item.s, rest, Y);
  }

  lemma NothingPropagated(s: nat, prompt: Option<Expr>, value: Expr, selects: seq<Select>, implies: seq<Select>)
    requires forall i :: 0 <= i < |selects| ==> selects[i].cond == Y
    requires forall i :: 0 <= i < |implies| ==> implies[i].cond == Y
    ensures var p := SymbolNode(s, prompt, value, selects, implies).props; Propagated(p, Y, Y) == p
  {
  }

  lemma {:induction false} NothingPropagatedAll(ts: seq<Tree<nat>>)
    requires forall i :: 0 <= i < |ts| ==> Propagated(ts[i].props, Y, Y) == ts[i].props
    ensures PropagatedAll(ts, Y, Y) == ts
  {
    hide Propagated;
    if ts == [] {
    } else {
      NothingPropagatedAll(ts[1..]);
      assert ts == [ts[0]] + ts[1..];
    }
  }

  lemma TopOrder(top: Tree<nat>)
    requires top.props.item.Menu? && top.props.dep == Y && top.props.visibility == Y
    ensures Finalize(top, [], Y).order == [Entry(top.node, top.props)] + FinalizeAll(PropagatedAll(top.kids, Y, Y), Y).order
  {
    hide FinalizeAll, CleanLevel;
  }

  /** The nodes in the order in which they are finalized. */
  function ModularEntries(selected: bool, implied: bool): seq<Entry<nat>> {
    var ts := ModularNodes(selected, implied);
    [Entry(0, ModularTop(selected, implied).props), Entry(1, ts[0].props), Entry(2, ts[1].props), Entry(3, ts[2].props),
     Entry(4, ts[3].props)]
  }

  lemma ModularOrder(selected: bool, implied: bool)
    ensures Finalize(ModularTop(selected, implied), [], Y).order == ModularEntries(selected, implied)
  {
    hide Finalize, FinalizeAll, PropagatedAll, Propagated;
    var ts := ModularNodes(selected, implied);
    NothingPropagated(0, Some(T_PROMPT), Y, [], []);
    NothingPropagated(1, None, M, if selected then [Select(0, Y)] else [], []);
    NothingPropagated(2, None, Y, [], if implied then [Select(0, Y)] else []);
    NothingPropagated(3, None, Y, [], []);
    NothingPropagatedAll(ts);
    FlatOrder(ts);
    TopOrder(ModularTop(selected, implied));
  }

  lemma AddLast(all: seq<SymProps>, es: seq<Entry<nat>>, n: nat)
    requires n < |es|
    ensures AddAll(all, es[..n + 1]) == AddProps(AddAll(all, es[..n]), es[n].props)
  {
    hide AddProps;
    assert es[..n + 1][..n] == es[..n];
  }

  /** The dependencies that a symbol has collected: direct, reverse and weak reverse. */
  function Deps(d: SymProps): (Expr, Expr, Expr) {
    (d.directDep, d.revDep, d.weakRevDep)
  }

  /** A node adds its dependency to its own symbol, and the symbol to the dependencies of T if it
      selects or implies T. */
  lemma AddNode(all: seq<SymProps>, p: Props, t: nat)
    requires p.item.SymNode? && p.item.s < |all| && t < |all| && all[p.item.s].directDep == N && p.dep == Y
    requires (p.selects == [] && p.implies == []) || (p.selects == [Select(0, Y)] && p.implies == [])
             || (p.selects == [] && p.implies == [Select(0, Y)])
    requires p.selects != [] ==> all[0].revDep == N
    requires p.implies != [] ==> all[0].weakRevDep == N
    ensures Deps(AddProps(all, p)[t]) ==
            (if t == p.item.s then Y else all[t].directDep,
             if t == 0 && p.selects != [] then Leaf(Sym(p.item.s)) else all[t].revDep,
             if t == 0 && p.implies != [] then Leaf(Sym(p.item.s)) else all[t].weakRevDep)
  {
    var s, sel := p.item.s, Select(0, Y);
    var all' := all[s := AddOwn(all[s], p)];
    assert [sel][..0] == [];
    assert AddRevs(all', s, [sel]) == AddRev(AddRevs(all', s, [sel][..0]), s, sel);
    assert AddWeakRevs(all', s, [sel]) == AddWeakRev(AddWeakRevs(all', s, [sel][..0]), s, sel);
  }

  lemma NothingAdded(all: seq<SymProps>, e: Entry<nat>)
    requires !e.props.item.SymNode?
    ensures AddAll(all, [e]) == all
  {
    assert [e][..0] == [];
  }

  /** The lists of a symbol with one node. */
  lemma {:induction false} OnlyNode(es: seq<Entry<nat>>, s: nat, i: nat)
    requires i < |es| && forall j :: 0 <= j < |es| ==> (es[j].props.item == SymNode(s) <==> j == i)
    ensures var p := es[i].props;
            ListsOf(es, s) == Lists(if p.prompt.Some? then [p.prompt.value] else [], p.defaults, p.ranges, p.selects, p.implies)
  {
    if i == 0 {
      NoNode(es[1..], s);
    } else {
      OnlyNode(es[1..], s, i - 1);
    }
  }

  lemma {:induction false} NoNode(es: seq<Entry<nat>>, s: nat)
    requires forall j :: 0 <= j < |es| ==> es[j].props.item != SymNode(s)
    ensures ListsOf(es, s) == Lists([], [], [], [], [])
  {
    if es == [] {
    } else {
      NoNode(es[1..], s);
    }
  }

  /** What has been collected after the first 'n' symbols. */
  lemma {:induction false} ModularCollected(selected: bool, implied: bool, n: nat, t: nat)
    requires n <= 4 && t < 4
    ensures Deps(AddAll(seq(4, _ => NO_PROPS), ModularEntries(selected, implied)[..n + 1])[t]) ==
            (if t < n then Y else N, if t == 0 && n >= 2 && selected then Leaf(Sym(1)) else N,
             if t == 0 && n >= 3 && implied then Leaf(Sym(2)) else N)
  {
    hide AddProps, AddAll;
    var es, none := ModularEntries(selected, implied), seq(4, _ => NO_PROPS);
    if n == 0 {
      NothingAdded(none, es[0]);
      assert es[..1] == [es[0]];
    } else {
      ModularCollected(selected, implied, n - 1, t);
      ModularCollected(selected, implied, n - 1, n - 1);
      ModularCollected(selected, implied, n - 1, 0);
      AddLast(none, es, n);
      AddNode(AddAll(none, es[..n]), es[n].props, t);
    }
  }

  lemma ModularSymbolIsBuilt(selected: bool, implied: bool, s: nat)
    requires s < 4
    ensures SymbolBuilt(Modular(selected, implied), ModularEntries(selected, implied), s)
  {
    hide AddAll, ListsOf;
    var es := ModularEntries(selected, implied);
    OnlyNode(es, s, s + 1);
    ModularCollected(selected, implied, 4, s);
    assert es[..5] == es;
  }

  /** Finalization of the parsed nodes leads to the configuration. */
  lemma ModularIsBuilt(selected: bool, implied: bool)
    ensures Parsed([ModularTop(selected, implied)])
    ensures BuiltFrom(Modular(selected, implied), Finalize(ModularTop(selected, implied), [], Y).order)
  {
    hide Finalize, Collected, SymbolBuilt;
    ModularOrder(selected, implied);
    forall s: nat | s < 4 ensures SymbolBuilt(Modular(selected, implied), ModularEntries(selected, implied), s) {
      ModularSymbolIsBuilt(selected, implied, s);
    }
    LeavesAreParsed(ModularNodes(selected, implied));
  }

  lemma {:induction false} LeavesAreParsed(ts: seq<Tree<nat>>)
    requires forall i :: 0 <= i < |ts| ==> ts[i].props.item.SymNode? && ts[i].kids == []
    ensures Parsed(ts)
  {
    if ts == [] {
    } else {
      LeavesAreParsed(ts[1..]);
    }
  }

  // What it computes

  lemma ModularMentions(selected: bool, implied: bool, i: Item, j: Item)
    requires Mentions(ItemExprs(Modular(selected, implied), i), j)
    ensures i == SymItem(0) && j in {SymItem(1), SymItem(2), SymItem(3)}
  {
    hide RangeExprs, DefaultExprs, Mentions;
    var k := Modular(selected, implied);
    var es := ItemExprs(k, i);
    ShortLists();
    if i.SymItem? && i.s < 4 {
      var d := k.Sym(i.s);
      assert es == d.prompts + [Y, d.defaults[0].value, d.revDep, d.weakRevDep, Y];
      if i.s > 0 {
        assert d.prompts == [] && forall e :: e in es ==> Constant(e);
        ConstantMentions(es, j);
      } else {
        TMentions(es, j);
      }
    } else {
      assert forall e :: e in es ==> Constant(e);
      ConstantMentions(es, j);
    }
  }

  predicate Constant(e: Expr) { e == N || e == M || e == Y }

  lemma ConstantMentions(es: seq<Expr>, j: Item)
    requires forall e :: e in es ==> Constant(e)
    ensures !Mentions(es, j)
  {
  }

  lemma TMentions(es: seq<Expr>, j: Item)
    requires Mentions(es, j)
    requires forall e :: e in es ==> Constant(e) || e in [T_PROMPT, Leaf(Sym(1)), Leaf(Sym(2))]
    ensures j in {SymItem(1), SymItem(2), SymItem(3)}
  {
    assert ExprItems(T_PROMPT) == ExprItems(M) + ExprItems(Leaf(Sym(3)));
  }

  lemma ShortLists()
    ensures RangeExprs([]) == [] && DefaultExprs([]) == []
    ensures forall value :: DefaultExprs([Default(value, Y)]) == [Y, value]
  {
  }

  lemma ModularIsWellFormed(selected: bool, implied: bool)
    ensures var k := Modular(selected, implied);
            WellFormed(k) && PlainChoices(k) && InputOk(k, NoInput(k)) && forall s: nat :: k.Sym(s).choice.None?
  {
    hide ItemExprs, Mentions;
    var k := Modular(selected, implied);
    assert forall s: nat :: s >= 4 ==> k.Sym(s) == NO_SYMBOL;
    assert forall c: nat :: k.Choice(c) == NO_CHOICE;
    assert forall s: nat :: NoInput(k).Val(s) == NoVal;
    forall i, j | Mentions(ItemExprs(k, i), j) ensures j in AllItems(k) { ModularMentions(selected, implied, i, j); }
  }

  lemma ModularIsFine(selected: bool, implied: bool)
    ensures var k := Modular(selected, implied);
            WellFormed(k) && Ranked(k, MODULAR_RANK) && PlainChoices(k) && InputOk(k, NoInput(k))
  {
    hide StaticReads, ItemExprs, Mentions, Closed, ChoicesOk, PlainChoices, InputOk;
    var k := Modular(selected, implied);
    ModularIsWellFormed(selected, implied);
    forall slot, r {:trigger r in StaticReads(k, slot)} | r in StaticReads(k, slot)
      ensures RankOf(MODULAR_RANK, r) < RankOf(MODULAR_RANK, slot)
    {
      ReadsAreReached(k, slot, r);
      if Mentions(ItemExprs(k, slot.Owner()), r.Owner()) { ModularMentions(selected, implied, slot.Owner(), r.Owner()); }
    }
  }

  lemma StepOf(k: Config, u: Input, rk: Rank, s: nat)
    ensures Step(k, u, SymVis(s), Values(k, u, rk)).v == TriV(SymVisOut(k, s, Values(k, u, rk)).v, false)
    ensures Step(k, u, SymTri(s), Values(k, u, rk)).v.AsTri() == SymTriOut(k, u.Val(s), s, Values(k, u, rk)).v.0
  {
  }

  /** The value of a symbol that has 'default y' or 'default m', and no user value. */
  lemma DefaultIs(k: Config, s: nat, value: Expr, env: Env)
    requires k.Sym(s).defaults == [Default(value, Y)] && (value == Y || value == M)
    ensures DefaultTri(k, s, env).v == if value == Y then 2 else 1
  {
    assert DefaultConds(k.Sym(s).defaults) == [Y];
  }

  /** S, I and MODULES have the values of their defaults. */
  lemma OtherValues(selected: bool, implied: bool, u: Input)
    requires var k := Modular(selected, implied); Ranked(k, MODULAR_RANK) && InputOk(k, u)
    requires u.Val(1) == u.Val(2) == u.Val(3) == NoVal
    ensures var env := Values(Modular(selected, implied), u, MODULAR_RANK);
            GetTri(env, SymTri(1)) == 1 && GetTri(env, SymTri(2)) == 2 && GetTri(env, SymTri(3)) == 2
  {
    hide Eval, Ranked, Step, DefaultTri;
    var k, rk := Modular(selected, implied), MODULAR_RANK;
    var env := Values(k, u, rk);
    forall s | 1 <= s < 4 ensures GetTri(env, SymTri(s)) == SymTriOut(k, NoVal, s, env).v.0 {
      EvalStep(k, u, rk, SymTri(s));
      StepOf(k, u, rk, s);
      GetValue(k, u, rk, SymTri(s));
    }
    DefaultIs(k, 1, M, env);
    DefaultIs(k, 2, Y, env);
    DefaultIs(k, 3, Y, env);
  }

  /** ... and T has a value depending on its user value. */
  lemma ModularValues(selected: bool, implied: bool, u: Input)
    requires var k := Modular(selected, implied); Ranked(k, MODULAR_RANK) && InputOk(k, u)
    requires u.Val(1) == u.Val(2) == u.Val(3) == NoVal
    ensures var k, rev, weak := Modular(selected, implied), if selected then 1 else 0, if implied then 2 else 0;
            && VisOf(k, u, MODULAR_RANK, 0) == 1
            && SymType(k, 0, Values(k, u, MODULAR_RANK)).v.Tristate?
            && StrDefault(k, 0, Values(k, u, MODULAR_RANK)) == "y"
            && ExprOf(k, u, MODULAR_RANK, k.Sym(0).revDep) == rev && ExprOf(k, u, MODULAR_RANK, k.Sym(0).weakRevDep) == weak
            && TriOf(k, u, MODULAR_RANK, 0) ==
               (if !u.Val(0).TriVal? then 2 else
                var t := Max(Min(u.Val(0).t, 1), rev);
                if t == 1 && implied then 2 else t)
  {
    hide Eval, Ranked, Step, DefaultTri;
    var k, rk := Modular(selected, implied), MODULAR_RANK;
    var env := Values(k, u, rk);
    OtherValues(selected, implied, u);
    assert ModulesTri(k, env).v == 2 && ExprOut(k, Y, env).v == 2;
    assert PromptsOut(k, [T_PROMPT], 1, env).v == 1 by {
      assert ExprOut(k, M, env).v == 1 && ExprOut(k, Leaf(Sym(3)), env).v == 2;
    }
    EvalStep(k, u, rk, SymVis(0));
    EvalStep(k, u, rk, SymTri(0));
    StepOf(k, u, rk, 0);
    GetValue(k, u, rk, SymVis(0));
    DefaultIs(k, 0, Y, env);
  }

  /** The lines written for the symbols are read as their values. */
  lemma ModularFile(selected: bool, implied: bool, u: Input, keep: set<nat>)
    requires var k := Modular(selected, implied); Setting(k, u, MODULAR_RANK) && forall s :: s in keep ==> s < 4
    ensures var k := Modular(selected, implied);
            ParseLines(k, ConfigLines(k, u, MODULAR_RANK, keep, 4)) == Emitted(k, u, MODULAR_RANK, keep, 4)
  {
    hide Setting, ConfigLines, Emitted, ParseLines, Eval, StrOf;
    var k, rk := Modular(selected, implied), MODULAR_RANK;
    assert forall s: nat :: s < 4 ==> k.Sym(s) == k.syms[s];
    NamesAreFine();
    forall s | 0 <= s < 4 ensures '\n' !in StrOf(k, u, rk, s) { WrittenText(k, u, rk, s); }
    ConfigLinesParsed(k, u, rk, keep, 4);
  }

  lemma NamesAreFine()
    ensures NameOk("T") && NameOk("S") && NameOk("I") && NameOk("MODULES")
  {
  }


  /** write_config() and load_config(replace=True) do not preserve values. */
  lemma FullRoundTripFails(u0: Input)
    requires InputOk(Modular(false, false), u0)
    ensures var k := Modular(false, false); var u := NoInput(k);
            var lines := ConfigLines(k, u, MODULAR_RANK, FullKeep(k, u, MODULAR_RANK), 4);
            !SameValues(k, u, Load(k, u0, lines, true), MODULAR_RANK)
  {
    hide Eval, Ranked, Load, ParseLines, SameValues, Emitted, WellFormed, Closed, ChoicesOk, PlainChoices, ConfigLines;
    var k := Modular(false, false);
    var u := NoInput(k);
    var keep := FullKeep(k, u, MODULAR_RANK);
    ModularIsFine(false, false);
    ModularValues(false, false, u);
    ModularFile(false, false, u, keep);
    assert Truncated(k, u, MODULAR_RANK, 0);
    FullConfigRoundTrip(k, u, MODULAR_RANK, u0, ConfigLines(k, u, MODULAR_RANK, keep, 4));
  }

  /** The user has set the tristate symbol to n. */
  function SetToN(k: Config): Input
    requires |k.syms| > 0
  {
    SetSym(k, NoInput(k), 0, Num(0))
  }

  lemma SetToNIsOk(selected: bool, implied: bool)
    ensures var k := Modular(selected, implied); var u := SetToN(k);
            InputOk(k, u) && u.Val(0) == TriVal(0) && u.Val(1) == u.Val(2) == u.Val(3) == NoVal
  {
    var k := Modular(selected, implied);
    ModularIsFine(selected, implied);
    SetSymOk(k, NoInput(k), 0, Num(0));
  }

  /** write_min_config() and load_config(replace=True) do not preserve values: with a select
      to m, a symbol set to n has the value m. It is not written out, because it is visible to
      m only, so that the user seems to have no say; but when nothing is assigned it is y. */
  lemma MinRoundTripFails(u0: Input)
    requires InputOk(Modular(true, false), u0)
    ensures var k := Modular(true, false); var u := SetToN(k);
            var lines := ConfigLines(k, u, MODULAR_RANK, MinKeep(k, u, MODULAR_RANK), 4);
            !SameValues(k, u, Load(k, u0, lines, true), MODULAR_RANK)
  {
    hide Eval, Ranked, Load, ParseLines, SameValues, Emitted, WellFormed, Closed, ChoicesOk, PlainChoices, SetToN, MinKept,
      ConfigLines;
    var k := Modular(true, false);
    var u := SetToN(k);
    var keep := MinKeep(k, u, MODULAR_RANK);
    ModularIsFine(true, false);
    SetToNIsOk(true, false);
    ModularValues(true, false, u);
    ModularFile(true, false, u, keep);
    assert Omitted(k, u, MODULAR_RANK, 0);
    assert Guarded(k) by { ModularIsGuarded(); }
    MinConfigRoundTrip(k, u, MODULAR_RANK, u0, ConfigLines(k, u, MODULAR_RANK, keep, 4));
  }

  lemma ModularIsGuarded()
    ensures Guarded(Modular(true, false))
  {
    var k := Modular(true, false);
    forall s: nat, env: Env
      ensures PromptsOut(k, k.Sym(s).prompts, |k.Sym(s).prompts|, env).v <= ExprOut(k, k.Sym(s).directDep, env).v
    {
      ModularIsBuilt(true, false);
      if s < 4 { PromptsAreGuarded(k, ModularTop(true, false), s, env); }
      else { assert k.Sym(s) == NO_SYMBOL; }
    }
  }

  /** Symbol.assignable is wrong: m is offered, but is not the value after it has been set. */
  lemma AssignableFails()
    ensures var k := Modular(true, true);
            exists v: Tri :: !AssignableExact(k, NoInput(k), MODULAR_RANK, 0, v)
  {
    hide Eval, Ranked;
    var k := Modular(true, true);
    ModularIsFine(true, true);
    ModularValues(true, true, NoInput(k));
    assert PromotedByImply(k, NoInput(k), MODULAR_RANK, 0);
    AssignableIsExact(k, NoInput(k), MODULAR_RANK, 0);
  }

  /** A choice of two tristate symbols. */
  const TWO_TRISTATES := Config(
    [Symbol("A", Tristate, [Expr.Mode(0)], [], [], N, N, Expr.Mode(0), Some(0), false),
     Symbol("B", Tristate, [Expr.Mode(0)], [], [], N, N, Expr.Mode(0), Some(0), false)],
    [Choice(Tristate, false, [Y], [], [0, 1])], None)

  /** A replacing load does not forget an old selection if the file assigns m only. */
  lemma LoadRemembers()
    ensures var lines := ["CONFIG_A=m"];
            exists u, u' ::
              InputOk(TWO_TRISTATES, u) && InputOk(TWO_TRISTATES, u') &&
              !SameUserInput(Load(TWO_TRISTATES, u, lines, true), Load(TWO_TRISTATES, u', lines, true))
  {
    hide Load, ParseLines, SameUserInput, InputOk;
    var k, lines := TWO_TRISTATES, ["CONFIG_A=m"];
    var asg := [Assignment(0, "m")];
    assert ParseLines(k, lines) == asg by { AssignsM(); }
    assert asg[..0] == [];
    assert WellFormed(k) by { TwoTristatesIsFine(); }
    assert k.Sym(0).choice == Some(0) && k.Choice(0).ty.Tristate?;
    assert FileMode(k, asg, 0) == Some(1) && FileSel(k, asg, 0) == None;
    assert !Decides(k, asg);
    LoadForgets(k, lines);
  }

  lemma AssignsM()
    ensures ParseLines(TWO_TRISTATES, ["CONFIG_A=m"]) == [Assignment(0, "m")]
  {
    hide ReadLine, FindSym;
    var line := "CONFIG_A=m";
    assert line == AssignLine("A", "m");
    AssignLineRead("A", "m");
    assert TWO_TRISTATES.syms[0].name == "A" && TWO_TRISTATES.syms[1].name == "B";
    FindSymIs(TWO_TRISTATES.syms, 0);
    assert "m"[..1] == "m";
    assert [line][..0] == [] && ParseLines(TWO_TRISTATES, []) == [];
  }

  lemma TwoTristatesIsFine()
    ensures WellFormed(TWO_TRISTATES)
  {
    hide ItemExprs, Mentions;
    var k := TWO_TRISTATES;
    assert forall c: nat :: c != 0 ==> k.Choice(c) == NO_CHOICE;
    assert forall s: nat :: s >= 2 ==> k.Sym(s) == NO_SYMBOL;
    TwoTristatesMention(0);
    TwoTristatesMention(1);
    forall i, j | i in AllItems(k) && Mentions(ItemExprs(k, i), j) ensures j in AllItems(k) {
      if i.ChItem? { ChoiceMentionsNothing(i.c, j); } else { TwoTristatesMention(i.s); }
    }
  }

  lemma TwoTristatesMention(s: nat)
    requires s < 2
    ensures forall j :: Mentions(ItemExprs(TWO_TRISTATES, SymItem(s)), j) <==> j == ChItem(0)
  {
    hide RangeExprs, DefaultExprs;
    ShortLists();
    var es := ItemExprs(TWO_TRISTATES, SymItem(s));
    assert es[0] == Expr.Mode(0) && forall e :: e in es ==> e == N || e == Expr.Mode(0);
    forall j ensures Mentions(es, j) <==> j == ChItem(0) {
      assert ExprItems(N) == {} && ExprItems(Expr.Mode(0)) == {ChItem(0)};
      assert es[0] in es;
    }
  }

  lemma ChoiceMentionsNothing(c: nat, j: Item)
    ensures !Mentions(ItemExprs(TWO_TRISTATES, ChItem(c)), j)
  {
    ConstantMentions(ItemExprs(TWO_TRISTATES, ChItem(c)), j);
  }

  const TWO_TRISTATES_RANK: Rank := (slot: Slot) => Stage(slot)

  /** All properties of this configuration can be evaluated. */
  lemma TwoTristatesIsRanked()
    ensures Ranked(TWO_TRISTATES, TWO_TRISTATES_RANK) && ChoiceSane(TWO_TRISTATES, 0)
  {
    hide StaticReads, ItemExprs, Mentions, Closed;
    var k := TWO_TRISTATES;
    TwoTristatesIsFine();
    forall slot, r {:trigger r in StaticReads(k, slot)} | r in StaticReads(k, slot)
      ensures RankOf(TWO_TRISTATES_RANK, r) < RankOf(TWO_TRISTATES_RANK, slot)
    {
      TwoTristatesReads(slot, r);
    }
  }

  lemma TwoTristatesReads(slot: Slot, r: Slot)
    requires r in StaticReads(TWO_TRISTATES, slot)
    ensures Stage(r) < Stage(slot)
  {
    hide StaticReads, ItemExprs, Mentions, Closed;
    var k := TWO_TRISTATES;
    TwoTristatesIsFine();
    ReadsAreReached(k, slot, r);
    match slot.Owner() {
      case SymItem(s) =>
        if s < 2 { TwoTristatesMention(s); } else { NoSymbolMentions(s, r.Owner()); }
        if r.Owner().ChItem? { SymbolReadsMode(k, slot, r); }
      case ChItem(c) =>
        ChoiceMentionsNothing(c, r.Owner());
        if r.Owner().SymItem? { ChoiceReadsVisibility(k, slot, r); }
    }
  }

  lemma NoSymbolMentions(s: nat, j: Item)
    requires s >= 2
    ensures !Mentions(ItemExprs(TWO_TRISTATES, SymItem(s)), j)
  {
    ConstantMentions(ItemExprs(TWO_TRISTATES, SymItem(s)), j);
  }
}
