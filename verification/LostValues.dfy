/** More configurations that are not restored when they are written and loaded: the mode of an
    optional choice, the text of a selected symbol, and a bool symbol of a tristate choice. */
module LostValues {
  import opened Wrappers
  import opened Tristate
  import opened Expressions
  import opened Evaluation
  import opened Semantics
  import opened Dependencies
  import opened Inputs
  import opened ConfigText
  import opened Loading
  import opened RoundTrip
  import opened ValueLaws
  import opened Termination
  import opened MissedLoops

  // An optional choice without a visible symbol

  /** An optional choice with a symbol A that depends on X, which is n. */
  const OPTIONAL := Config(
    [Symbol("A", Bool, [A_PROMPT], [], [], N, N, A_PROMPT, Some(0), false),
     Symbol("X", Bool, [Y], [], [], N, N, Y, None, false)],
    [Choice(Bool, true, [Y], [], [0])], None)
  const A_PROMPT := And(Leaf(Sym(1)), Expr.Mode(0))
  const OPTIONAL_RANK: Rank := (slot: Slot) => if slot.Owner() == SymItem(1) then Kind(slot) else 3 + Stage(slot)

  lemma OptionalMentions(i: Item, j: Item)
    ensures Mentions(ItemExprs(OPTIONAL, i), j) <==> i == SymItem(0) && (j == ChItem(0) || j == SymItem(1))
  {
    hide RangeExprs, DefaultExprs, Mentions;
    ShortLists();
    var es := ItemExprs(OPTIONAL, i);
    ListMentions(es, j);
    if i == SymItem(0) {
      assert es == [A_PROMPT, N, N, A_PROMPT];
      assert j in ExprItems(es[0]) <==> j == ChItem(0) || j == SymItem(1);
    } else if i == SymItem(1) {
      assert es == [Y, N, N, Y];
    } else if i.SymItem? {
      assert OPTIONAL.Sym(i.s) == NO_SYMBOL;
    } else if i.c == 0 {
      assert es == [Y];
    }
  }

  lemma OptionalIsFine()
    ensures WellFormed(OPTIONAL) && PlainChoices(OPTIONAL)
  {
    hide ItemExprs, Mentions;
    var k := OPTIONAL;
    forall i, j { OptionalMentions(i, j); }
    assert forall c: nat :: c != 0 ==> k.Choice(c) == NO_CHOICE;
    assert forall s: nat :: s >= 2 ==> k.Sym(s) == NO_SYMBOL;
    assert AllItems(k) == {SymItem(0), SymItem(1), ChItem(0)};
    assert HasMode(A_PROMPT, 0);
  }

  lemma OptionalIsRanked()
    ensures Ranked(OPTIONAL, OPTIONAL_RANK)
  {
    hide StaticReads, ItemExprs, Mentions, Closed;
    var k := OPTIONAL;
    OptionalIsFine();
    forall slot, r {:trigger r in StaticReads(k, slot)} | r in StaticReads(k, slot)
      ensures RankOf(OPTIONAL_RANK, r) < RankOf(OPTIONAL_RANK, slot)
    {
      ReadsAreReached(k, slot, r);
      OptionalMentions(slot.Owner(), r.Owner());
      match slot.Owner() {
        case SymItem(s) => if r.Owner().ChItem? { SymbolReadsMode(k, slot, r); }
        case ChItem(c) => if r.Owner().SymItem? { ChoiceReadsVisibility(k, slot, r); }
      }
    }
  }

  /** The user has set the mode of the choice to y. */
  function SetToY(): Input {
    SetMode(OPTIONAL, NoInput(OPTIONAL), 0, Num(2))
  }

  lemma SetToYIsOk()
    ensures InputOk(OPTIONAL, SetToY()) && SetToY().Mode(0) == Some(2) && SetToY().Val(1) == NoVal
  {
    NoInputOk(OPTIONAL);
    SetModeOk(OPTIONAL, NoInput(OPTIONAL), 0, Num(2));
  }

  lemma OptionalModeIsLost()
    requires Ranked(OPTIONAL, OPTIONAL_RANK)
    ensures var k, u, rk := OPTIONAL, SetToY(), OPTIONAL_RANK;
            ModeLost(k, u, rk, FullKeep(k, u, rk), 0)
  {
    hide Eval, Ranked, Step;
    var k, u, rk := OPTIONAL, SetToY(), OPTIONAL_RANK;
    var env := Values(k, u, rk);
    SetToYIsOk();
    XIsN();
    assert VisOf(k, u, rk, 0) == 0 by {
      EvalStep(k, u, rk, SymVis(0));
      assert ExprOut(k, Leaf(Sym(1)), env).v == 0 && ExprOut(k, A_PROMPT, env).v == 0;
      assert PromptsOut(k, [A_PROMPT], 1, env).v == 0;
      VisIsStep(k, u, 0, env);
    }
    assert Eval(k, u, rk, ChVis(0)).AsTri() == 2 by {
      EvalStep(k, u, rk, ChVis(0));
      assert ExprOut(k, Y, env).v == 2;
      assert PromptsOut(k, [Y], 1, env).v == 2;
      ChVisIsStep(k, u, 0, env);
    }
    EvalStep(k, u, rk, ChMode(0));
    GetValue(k, u, rk, ChVis(0));
    ModeIsStep(k, u, 0, env);
    OptionalIsFine();
    assert ChoiceSane(k, 0);
    MemberValue(k, u, rk, 0, 0);
  }

  lemma VisIsStep(k: Config, u: Input, s: nat, env: Env)
    ensures Step(k, u, SymVis(s), env).v.AsTri() == SymVisOut(k, s, env).v
  {
  }

  lemma ChVisIsStep(k: Config, u: Input, c: nat, env: Env)
    ensures Step(k, u, ChVis(c), env).v.AsTri() == ChVisOut(k, c, env).v
  {
  }

  lemma ModeIsStep(k: Config, u: Input, c: nat, env: Env)
    ensures Step(k, u, ChMode(c), env).v.AsTri() == ChModeOut(k, u.Mode(c), c, env).v
  {
  }

  lemma XIsN()
    requires Ranked(OPTIONAL, OPTIONAL_RANK)
    ensures GetTri(Values(OPTIONAL, SetToY(), OPTIONAL_RANK), SymTri(1)) == 0
  {
    hide Eval, Ranked;
    var k, u, rk := OPTIONAL, SetToY(), OPTIONAL_RANK;
    SetToYIsOk();
    EvalStep(k, u, rk, SymTri(1));
    GetValue(k, u, rk, SymTri(1));
    assert DefaultConds([]) == [];
  }

  /** write_config() and load_config(replace=True) do not preserve the mode of the choice. */
  lemma OptionalModeFails(u0: Input)
    requires InputOk(OPTIONAL, u0)
    ensures var k, u, rk := OPTIONAL, SetToY(), OPTIONAL_RANK;
            var u' := Load(k, u0, ConfigLines(k, u, rk, FullKeep(k, u, rk), 2), true);
            !(SameValues(k, u, u', rk) && SameModes(k, u, u', rk))
  {
    hide Eval, Ranked, Load, ParseLines, SameValues, SameModes, Emitted, ConfigLines, WellFormed, PlainChoices, ModeLost, StrOf,
      Written, InputOk;
    var k, u, rk := OPTIONAL, SetToY(), OPTIONAL_RANK;
    OptionalIsFine();
    OptionalIsRanked();
    SetToYIsOk();
    OptionalModeIsLost();
    assert NameOk("A") && NameOk("X");
    assert k.Sym(0) == k.syms[0] && k.Sym(1) == k.syms[1];
    forall s | 0 <= s < 2 ensures '\n' !in StrOf(k, u, rk, s) { WrittenText(k, u, rk, s); }
    ConfigLinesParsed(k, u, rk, FullKeep(k, u, rk), 2);
    FullConfigRoundTrip(k, u, rk, u0, ConfigLines(k, u, rk, FullKeep(k, u, rk), 2));
  }

  // A selected string symbol

  /** A string symbol T with 'default "b"' that is selected by I, which is y. */
  const SELECTED := Config(
    [Symbol("T", String, [Y], [Default(B_TEXT, Y)], [], Leaf(Sym(1)), N, Y, None, false),
     Symbol("I", Bool, [], [Default(Y, Y)], [], N, N, Y, None, false)], [], None)
  const B_TEXT := Leaf(Const("b"))
  const SELECTED_RANK: Rank := (slot: Slot) => (if slot.Owner() == SymItem(0) then 3 else 0) + Kind(slot)

  lemma SelectedMentions(i: Item, j: Item)
    ensures Mentions(ItemExprs(SELECTED, i), j) <==> i == SymItem(0) && j == SymItem(1)
  {
    hide RangeExprs, DefaultExprs, Mentions;
    ShortLists();
    var es := ItemExprs(SELECTED, i);
    ListMentions(es, j);
    if i == SymItem(0) {
      assert es == [Y, Y, B_TEXT, Leaf(Sym(1)), N, Y];
      assert j in ExprItems(es[3]) <==> j == SymItem(1);
    } else if i == SymItem(1) {
      assert es == [Y, Y, N, N, Y];
    } else if i.SymItem? {
      assert SELECTED.Sym(i.s) == NO_SYMBOL;
    }
  }

  lemma SelectedIsFine()
    ensures WellFormed(SELECTED) && PlainChoices(SELECTED) && Ranked(SELECTED, SELECTED_RANK)
  {
    hide ItemExprs, Mentions, StaticReads;
    var k := SELECTED;
    forall i, j { SelectedMentions(i, j); }
    assert forall c: nat :: k.Choice(c) == NO_CHOICE;
    assert forall s: nat :: s >= 2 ==> k.Sym(s) == NO_SYMBOL;
    assert AllItems(k) == {SymItem(0), SymItem(1)};
    forall slot, r {:trigger r in StaticReads(k, slot)} | r in StaticReads(k, slot)
      ensures RankOf(SELECTED_RANK, r) < RankOf(SELECTED_RANK, slot)
    {
      ReadsAreReached(k, slot, r);
    }
  }

  /** The user has set T to "a". */
  function SetToA(): Input {
    SetSym(SELECTED, NoInput(SELECTED), 0, Text("a"))
  }

  lemma SetToAIsOk()
    ensures InputOk(SELECTED, SetToA()) && SetToA().Val(0) == StrVal("a") && SetToA().Val(1) == NoVal
  {
    NoInputOk(SELECTED);
    SetSymOk(SELECTED, NoInput(SELECTED), 0, Text("a"));
  }

  lemma SelectedIsGuarded()
    ensures Guarded(SELECTED)
  {
    var k := SELECTED;
    forall s: nat, env: Env
      ensures PromptsOut(k, k.Sym(s).prompts, |k.Sym(s).prompts|, env).v <= ExprOut(k, k.Sym(s).directDep, env).v
    {
      if s < 2 { assert k.Sym(s).directDep == Y && ExprOut(k, Y, env).v == 2; } else { assert k.Sym(s) == NO_SYMBOL; }
    }
  }

  lemma SelectedTextIsOmitted()
    requires Ranked(SELECTED, SELECTED_RANK)
    ensures var k, u, rk := SELECTED, SetToA(), SELECTED_RANK;
            OmittedText(k, u, rk, 0) && StrOf(k, u, rk, 0) == "a"
  {
    hide Eval, Ranked, Step, DefaultStr;
    var k, u, rk := SELECTED, SetToA(), SELECTED_RANK;
    var env := Values(k, u, rk);
    SetToAIsOk();
    IIsY();
    assert VisOf(k, u, rk, 0) == 2 by {
      EvalStep(k, u, rk, SymVis(0));
      assert ExprOut(k, Y, env).v == 2;
      assert PromptsOut(k, [Y], 1, env).v == 2;
      VisIsStep(k, u, 0, env);
    }
    assert ExprOf(k, u, rk, Leaf(Sym(1))) == 2;
    assert DefaultStr(k, 0, env).v == Some("b") by { DefaultIsB(env); }
    TextStep(k, u, u, rk, 0);
  }

  lemma DefaultIsB(env: Env)
    ensures DefaultStr(SELECTED, 0, env).v == Some("b")
  {
    assert DefaultConds(SELECTED.Sym(0).defaults) == [Y] && ExprOut(SELECTED, Y, env).v == 2;
  }

  lemma IIsY()
    requires Ranked(SELECTED, SELECTED_RANK)
    ensures GetTri(Values(SELECTED, SetToA(), SELECTED_RANK), SymTri(1)) == 2
  {
    hide Eval, Ranked;
    var k, u, rk := SELECTED, SetToA(), SELECTED_RANK;
    SetToAIsOk();
    EvalStep(k, u, rk, SymTri(1));
    GetValue(k, u, rk, SymTri(1));
    assert DefaultConds(k.Sym(1).defaults) == [Y];
  }

  /** write_min_config() and load_config(replace=True) do not preserve the value of T. */
  lemma SelectedTextFails(u0: Input)
    requires InputOk(SELECTED, u0)
    ensures var k, u, rk := SELECTED, SetToA(), SELECTED_RANK;
            var u' := Load(k, u0, ConfigLines(k, u, rk, MinKeep(k, u, rk), 2), true);
            !SameValues(k, u, u', rk)
  {
    hide Eval, Ranked, Load, ParseLines, SameValues, SameModes, Emitted, ConfigLines, WellFormed, PlainChoices, StrOf,
      Written, InputOk, OmittedText, Guarded, StrDefault, MinKept;
    var k, u, rk := SELECTED, SetToA(), SELECTED_RANK;
    SelectedIsFine();
    SetToAIsOk();
    SelectedTextIsOmitted();
    SelectedIsGuarded();
    assert NameOk("T") && NameOk("I");
    assert k.Sym(0) == k.syms[0] && k.Sym(1) == k.syms[1];
    WrittenText(k, u, rk, 1);
    ConfigLinesParsed(k, u, rk, MinKeep(k, u, rk), 2);
    assert ModesSurvive(k, u, rk, MinKeep(k, u, rk));
    MinConfigRoundTrip(k, u, rk, u0, ConfigLines(k, u, rk, MinKeep(k, u, rk), 2));
  }

  // A bool symbol of a tristate choice

  /** A tristate choice with a bool symbol A. MODULES is y. */
  const MIXED := Config(
    [Symbol("A", Bool, [Expr.Mode(0)], [], [], N, N, Expr.Mode(0), Some(0), false),
     Symbol("MODULES", Bool, [], [Default(Y, Y)], [], N, N, Y, None, false)],
    [Choice(Tristate, false, [Y], [], [0])], Some(1))
  const MIXED_RANK: Rank := (slot: Slot) => if slot.Owner() == SymItem(1) then Kind(slot) else 3 + Stage(slot)

  lemma MixedMentions(i: Item, j: Item)
    ensures Mentions(ItemExprs(MIXED, i), j) <==> i == SymItem(0) && j == ChItem(0)
  {
    hide RangeExprs, DefaultExprs, Mentions;
    ShortLists();
    var es := ItemExprs(MIXED, i);
    ListMentions(es, j);
    if i == SymItem(0) {
      assert es == [Expr.Mode(0), N, N, Expr.Mode(0)];
      assert j in ExprItems(es[0]) <==> j == ChItem(0);
    } else if i == SymItem(1) {
      assert es == [Y, Y, N, N, Y];
    } else if i.SymItem? {
      assert MIXED.Sym(i.s) == NO_SYMBOL;
    } else if i.c == 0 {
      assert es == [Y];
    }
  }

  lemma MixedIsFine()
    ensures WellFormed(MIXED) && PlainChoices(MIXED) && Guarded(MIXED)
  {
    hide ItemExprs, Mentions;
    var k := MIXED;
    forall i, j { MixedMentions(i, j); }
    assert forall c: nat :: c != 0 ==> k.Choice(c) == NO_CHOICE;
    assert forall s: nat :: s >= 2 ==> k.Sym(s) == NO_SYMBOL;
    assert AllItems(k) == {SymItem(0), SymItem(1), ChItem(0)};
    assert HasMode(Expr.Mode(0), 0);
    forall s: nat, env: Env
      ensures PromptsOut(k, k.Sym(s).prompts, |k.Sym(s).prompts|, env).v <= ExprOut(k, k.Sym(s).directDep, env).v
    {
      if s == 0 { assert PromptsOut(k, [Expr.Mode(0)], 1, env).v == ExprOut(k, Expr.Mode(0), env).v; }
    }
  }

  lemma MixedIsRanked()
    ensures Ranked(MIXED, MIXED_RANK)
  {
    hide StaticReads, ItemExprs, Mentions, Closed;
    var k := MIXED;
    MixedIsFine();
    forall slot, r {:trigger r in StaticReads(k, slot)} | r in StaticReads(k, slot)
      ensures RankOf(MIXED_RANK, r) < RankOf(MIXED_RANK, slot)
    {
      ReadsAreReached(k, slot, r);
      MixedMentions(slot.Owner(), r.Owner());
      match slot.Owner() {
        case SymItem(s) => if r.Owner().ChItem? { SymbolReadsMode(k, slot, r); }
        case ChItem(c) => if r.Owner().SymItem? { ChoiceReadsVisibility(k, slot, r); }
      }
    }
  }

  /** The user has set the mode of the choice to y. */
  function MixedToY(): Input {
    SetMode(MIXED, NoInput(MIXED), 0, Num(2))
  }

  lemma MixedToYIsOk()
    ensures InputOk(MIXED, MixedToY()) && MixedToY().Mode(0) == Some(2) && MixedToY().Val(1) == NoVal && MixedToY().Sel(0) == None
  {
    NoInputOk(MIXED);
    SetModeOk(MIXED, NoInput(MIXED), 0, Num(2));
  }

  lemma MixedModulesIsY()
    requires Ranked(MIXED, MIXED_RANK)
    ensures GetTri(Values(MIXED, MixedToY(), MIXED_RANK), SymTri(1)) == 2
  {
    hide Eval, Ranked;
    var k, u, rk := MIXED, MixedToY(), MIXED_RANK;
    MixedToYIsOk();
    EvalStep(k, u, rk, SymTri(1));
    GetValue(k, u, rk, SymTri(1));
    assert DefaultConds(k.Sym(1).defaults) == [Y];
  }

  /** The choice is in y mode, and A is visible. */
  lemma MixedIsVisible()
    requires Ranked(MIXED, MIXED_RANK)
    ensures var k, u, rk := MIXED, MixedToY(), MIXED_RANK;
            && ModeOf(k, u, rk, 0) == 2 && ChType(k, 0, Values(k, u, rk)).v.Tristate?
            && VisOf(k, u, rk, 0) == 2 && DefaultSelection(k, 0, Values(k, u, rk)).v == Some(0)
  {
    hide Eval, Ranked, Step;
    var k, u, rk := MIXED, MixedToY(), MIXED_RANK;
    var env := Values(k, u, rk);
    MixedToYIsOk();
    MixedModulesIsY();
    assert ModulesTri(k, env).v == 2;
    assert Eval(k, u, rk, ChVis(0)).AsTri() == 2 by {
      EvalStep(k, u, rk, ChVis(0));
      assert ExprOut(k, Y, env).v == 2;
      assert PromptsOut(k, [Y], 1, env).v == 2;
      ChVisIsStep(k, u, 0, env);
    }
    EvalStep(k, u, rk, ChMode(0));
    GetValue(k, u, rk, ChVis(0));
    ModeIsStep(k, u, 0, env);
    GetValue(k, u, rk, ChMode(0));
    assert VisOf(k, u, rk, 0) == 2 by {
      EvalStep(k, u, rk, SymVis(0));
      assert PromptsOut(k, [Expr.Mode(0)], 1, env).v == ExprOut(k, Expr.Mode(0), env).v == 2;
      VisIsStep(k, u, 0, env);
    }
    GetValue(k, u, rk, SymVis(0));
    assert FirstVisible([0], 0, env).v == Some(0);
  }

  /** write_min_config() and load_config(replace=True) do not preserve values and modes. */
  lemma MixedModeFails(u0: Input)
    requires InputOk(MIXED, u0)
    ensures var k, u, rk := MIXED, MixedToY(), MIXED_RANK;
            var u' := Load(k, u0, ConfigLines(k, u, rk, MinKeep(k, u, rk), 2), true);
            !(SameValues(k, u, u', rk) && SameModes(k, u, u', rk))
  {
    hide Eval, Ranked, Load, ParseLines, SameValues, SameModes, Emitted, ConfigLines, WellFormed, PlainChoices, StrOf, TriOf,
      Written, InputOk, Guarded, StrDefault, DefaultSelection, ChType, VisOf, ModeOf, Omitted, OmittedText;
    var k, u, rk := MIXED, MixedToY(), MIXED_RANK;
    MixedIsFine();
    MixedIsRanked();
    MixedToYIsOk();
    MixedIsVisible();
    assert NameOk("A") && NameOk("MODULES");
    assert k.Sym(0) == k.syms[0] && k.Sym(1) == k.syms[1];
    forall s | 0 <= s < 2 ensures '\n' !in StrOf(k, u, rk, s) { WrittenText(k, u, rk, s); }
    ConfigLinesParsed(k, u, rk, MinKeep(k, u, rk), 2);
    assert !MinKept(k, u, rk, 0) by { MixedIsSkipped(); }
    assert ModeLost(k, u, rk, MinKeep(k, u, rk), 0);
    MinConfigRoundTrip(k, u, rk, u0, ConfigLines(k, u, rk, MinKeep(k, u, rk), 2));
  }

  lemma MixedIsSkipped()
    requires Ranked(MIXED, MIXED_RANK)
    ensures !MinKept(MIXED, MixedToY(), MIXED_RANK, 0)
  {
    hide Eval, Ranked, Step, DefaultSelection, ChType, VisOf, ModeOf, StrDefault, Written, StrOf, TriOf, SelOf;
    var k, u, rk := MIXED, MixedToY(), MIXED_RANK;
    MixedIsFine();
    MixedToYIsOk();
    MixedIsVisible();
    assert ChoiceSane(k, 0);
    ChoiceModes(k, u, rk, 0);
    assert k.Choice(0).syms == [0] && VisOf(k, u, rk, 0) != 0;
    assert AnyVisible(k, u, rk, 0);
    assert TriOf(k, u, rk, 0) == 2;
  }
}
