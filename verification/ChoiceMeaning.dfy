/** What the modes and selections of choices are in terms of their declared prompts and defaults,
    and what the values offered for choice symbols mean. */
module ChoiceMeaning {
  import opened Wrappers
  import opened Tristate
  import opened Expressions
  import opened Evaluation
  import opened Semantics
  import opened Dependencies
  import opened Inputs
  import opened ValueLaws
  import opened ValueMeaning

  ghost function ChVisOf(k: Config, u: Input, rk: Rank, c: nat): Tri { Eval(k, u, rk, ChVis(c)).AsTri() }

  /** A choice is as visible as its most visible prompt, and y visible instead of m visible if
      it cannot be m. */
  lemma ChoiceVisibilityIs(k: Config, u: Input, rk: Rank, c: nat, p: Tri)
    requires Ranked(k, rk) && SelsOk(k, u) && Largest(k, u, rk, k.Choice(c).prompts, p)
    ensures ChVisOf(k, u, rk, c) == if p == 1 && !ChoiceCanBeM(k, u, rk, c) then 2 else p
  {
    hide ChType, ChoiceCanBeM, Largest;
    var ps := k.Choice(c).prompts;
    PromptsAre(k, u, rk, ps, |ps|);
    assert ps[..|ps|] == ps;
    LargestIsUnique(k, u, rk, ps, p, PromptsOut(k, ps, |ps|, Values(k, u, rk)).v);
    EvalStep(k, u, rk, ChVis(c));
    ChoiceTypeIs(k, u, rk, c);
  }

  /** The mode of a choice: what the user asked for, but at least m unless the choice is optional,
      and at most the visibility; m becomes y if the choice cannot be m. */
  lemma ModeIs(k: Config, u: Input, rk: Rank, c: nat)
    requires Ranked(k, rk) && SelsOk(k, u) && k.Choice(c).ty.Logic()
    ensures var low: Tri := if k.Choice(c).optional then 0 else 1;
            var wanted := if u.Mode(c).Some? then Max(low, u.Mode(c).value) else low;
            var val := Min(wanted, ChVisOf(k, u, rk, c));
            ModeOf(k, u, rk, c) == if val == 1 && !ChoiceCanBeM(k, u, rk, c) then 2 else val
  {
    hide ChType, ChoiceCanBeM;
    EvalStep(k, u, rk, ChMode(c));
    GetValue(k, u, rk, ChVis(c));
    ChoiceTypeIs(k, u, rk, c);
  }

  // Selections

  /** Can default 'i' of the choice decide? It must be active, and its symbol visible. */
  ghost predicate Decides(k: Config, u: Input, rk: Rank, c: nat, i: nat) {
    var ds := k.Choice(c).defaults;
    i < |ds| && ExprOf(k, u, rk, ds[i].cond) != 0 && ds[i].atom.Sym? && VisOf(k, u, rk, ds[i].atom.id) != 0
  }

  /** Is 'i' the first default that can decide, or the number of defaults if none can? */
  ghost predicate FirstDeciding(k: Config, u: Input, rk: Rank, c: nat, i: nat) {
    i <= |k.Choice(c).defaults| && (forall j: nat :: j < i ==> !Decides(k, u, rk, c, j))
    && (i < |k.Choice(c).defaults| ==> Decides(k, u, rk, c, i))
  }

  /** Is 'j' the position of the first visible symbol, or the number of symbols? */
  ghost predicate FirstVisibleIs(k: Config, u: Input, rk: Rank, c: nat, j: nat) {
    var syms := k.Choice(c).syms;
    j <= |syms| && (forall x :: 0 <= x < j ==> VisOf(k, u, rk, syms[x]) == 0) && (j < |syms| ==> VisOf(k, u, rk, syms[j]) != 0)
  }

  lemma {:induction false} FirstDefaultAt(k: Config, u: Input, rk: Rank, c: nat, i: nat, n: nat)
    requires i <= n && FirstDeciding(k, u, rk, c, n)
    ensures var ds := k.Choice(c).defaults;
            FirstDefault(k, ds, i, Values(k, u, rk)).v == if n < |ds| then Some(ds[n].atom.id) else None
    decreases n - i
  {
    hide Eval, ExprOut;
    var ds := k.Choice(c).defaults;
    if i < |ds| && ds[i].atom.Sym? { GetValue(k, u, rk, SymVis(ds[i].atom.id)); }
    if i == n {
    } else {
      assert !Decides(k, u, rk, c, i);
      FirstDefaultAt(k, u, rk, c, i + 1, n);
    }
  }

  lemma {:induction false} FirstVisibleAt(k: Config, u: Input, rk: Rank, c: nat, i: nat, n: nat)
    requires i <= n && FirstVisibleIs(k, u, rk, c, n)
    ensures var syms := k.Choice(c).syms;
            FirstVisible(syms, i, Values(k, u, rk)).v == if n < |syms| then Some(syms[n]) else None
    decreases n - i
  {
    hide Eval;
    var syms := k.Choice(c).syms;
    if i < |syms| { GetValue(k, u, rk, SymVis(syms[i])); }
    if i == n {
    } else {
      FirstVisibleAt(k, u, rk, c, i + 1, n);
    }
  }

  /** The selection of a choice in y mode: the user's, if it is visible; else the symbol of the
      first default that is active and whose symbol is visible; else the first visible symbol.
      There is no selection in the other modes. */
  lemma SelectionIs(k: Config, u: Input, rk: Rank, c: nat, i: nat, j: nat)
    requires Ranked(k, rk) && SelsOk(k, u) && FirstDeciding(k, u, rk, c, i) && FirstVisibleIs(k, u, rk, c, j)
    ensures var d := k.Choice(c);
            SelOf(k, u, rk, c) ==
            if ModeOf(k, u, rk, c) != 2 then None
            else if u.Sel(c).Some? && VisOf(k, u, rk, u.Sel(c).value) != 0 then u.Sel(c)
            else if i < |d.defaults| then Some(d.defaults[i].atom.id)
            else if j < |d.syms| then Some(d.syms[j])
            else None
  {
    hide FirstDefault, FirstVisible, SymVisOut, SymTriOut, SymStrOut, ChVisOut, ChModeOut, Eval;
    EvalStep(k, u, rk, ChSel(c));
    GetValue(k, u, rk, ChMode(c));
    if u.Sel(c).Some? { GetValue(k, u, rk, SymVis(u.Sel(c).value)); }
    FirstDefaultAt(k, u, rk, c, 0, i);
    FirstVisibleAt(k, u, rk, c, 0, j);
  }

  /** A choice symbol is written if it is visible; its value is that of SelectionIs in y mode, and
      the user's in m mode. */
  lemma MemberIs(k: Config, u: Input, rk: Rank, c: nat, s: nat)
    requires Ranked(k, rk) && SelsOk(k, u) && k.Sym(s).ty.Logic() && k.Sym(s).choice == Some(c)
    ensures var vis := VisOf(k, u, rk, s);
            TriOf(k, u, rk, s) ==
            if vis == 2 then (if SelOf(k, u, rk, c) == Some(s) then 2 else 0)
            else if vis == 1 && u.Val(s).TriVal? && u.Val(s).t != 0 then 1 else 0
    ensures Eval(k, u, rk, SymTri(s)).Writes() <==> VisOf(k, u, rk, s) != 0
  {
    EvalStep(k, u, rk, SymTri(s));
    GetValue(k, u, rk, SymVis(s));
    GetValue(k, u, rk, ChSel(c));
  }

  // Assignable values of choice symbols

  /** A choice symbol is invisible, or has the visibility of the mode. */
  lemma VisibilityIsMode(k: Config, u: Input, rk: Rank, c: nat, s: nat)
    requires Ranked(k, rk) && SelsOk(k, u) && ChoiceSane(k, c) && s in k.Choice(c).syms && k.Choice(c).ty.Logic()
    ensures VisOf(k, u, rk, s) == 0 || VisOf(k, u, rk, s) == ModeOf(k, u, rk, c)
    ensures VisOf(k, u, rk, s) == 1 ==> CanBeM(k, u, rk, s)
  {
    hide SymType, ChType;
    var env := Values(k, u, rk);
    EvalStep(k, u, rk, SymVis(s));
    EvalStep(k, u, rk, ChMode(c));
    GetValue(k, u, rk, ChMode(c));
    GetValue(k, u, rk, ChVis(c));
    TypeIs(k, u, rk, s);
    ChoiceTypeIs(k, u, rk, c);
    PromptsLimited(k, k.Sym(s).prompts, |k.Sym(s).prompts|, c, env);
  }

  /** Neither the user value of a choice symbol nor the user selection enter the evaluation
      before the selection. */
  lemma {:induction false} BelowSelection(k: Config, u: Input, u': Input, rk: Rank, c: nat, s: nat, r: Slot)
    requires Ranked(k, rk) && SelsOk(k, u) && SelsOk(k, u')
    requires k.Sym(s).ty.Logic() && k.Sym(s).choice == Some(c) && RankOf(rk, r) < RankOf(rk, ChSel(c))
    requires u.modes == u'.modes
    requires forall x: nat :: x != s ==> u.Val(x) == u'.Val(x)
    requires forall x: nat :: x != c ==> u.Sel(x) == u'.Sel(x)
    ensures Eval(k, u, rk, r) == Eval(k, u', rk, r)
    decreases rk(r)
  {
    hide Step;
    var env, env' := Values(k, u, rk), Values(k, u', rk);
    StepReads(k, u, r, env);
    assert r != SymTri(s) by { assert ChSel(c) in StaticReads(k, SymTri(s)); }
    forall q | q in Step(k, u, r, env).rd ensures env(q) == env'(q) {
      BelowSelection(k, u, u', rk, c, s, q);
    }
    StepIgnores(k, u, u', c, s, r, env);
    StepAgree(k, u', u', r, env, env');
    EvalStep(k, u, rk, r);
    EvalStep(k, u', rk, r);
  }

  /** What ranks below the selection does not look at either of them. */
  lemma StepIgnores(k: Config, u: Input, u': Input, c: nat, s: nat, r: Slot, env: Env)
    requires k.Sym(s).ty.Logic()
    requires u.modes == u'.modes
    requires forall x: nat :: x != s ==> u.Val(x) == u'.Val(x)
    requires forall x: nat :: x != c ==> u.Sel(x) == u'.Sel(x)
    requires r != SymTri(s) && r != ChSel(c)
    ensures Step(k, u, r, env) == Step(k, u', r, env)
  {
    hide SymVisOut, SymAsgOut, ChVisOut, ChAsgOut, ChSelOut, TextStrOut, NumStrOut, PlainTriOut, MemberTriOut;
    assert forall x: nat :: u.Mode(x) == u'.Mode(x);
  }

  /** Setting a choice symbol changes neither its visibility nor the mode, and setting it to n or
      m does not change the selection. */
  lemma SetMemberKeeps(k: Config, u: Input, rk: Rank, c: nat, s: nat, v: Tri)
    requires WellFormed(k) && Ranked(k, rk) && InputOk(k, u)
    requires s < |k.syms| && k.Sym(s).choice == Some(c) && ChoiceSane(k, c) && k.Sym(s).ty.Logic()
    ensures var u' := SetSym(k, u, s, Num(v));
            && InputOk(k, u')
            && VisOf(k, u', rk, s) == VisOf(k, u, rk, s) && ModeOf(k, u', rk, c) == ModeOf(k, u, rk, c)
            && (v != 2 ==> SelOf(k, u', rk, c) == SelOf(k, u, rk, c))
  {
    hide Step, Eval;
    var u' := SetSym(k, u, s, Num(v));
    SetSymOk(k, u, s, Num(v));
    assert SymVis(s) in StaticReads(k, ChSel(c)) by { assert s in Selectable(k, c); }
    assert ChMode(c) in StaticReads(k, ChSel(c));
    BelowSelection(k, u, u', rk, c, s, SymVis(s));
    BelowSelection(k, u, u', rk, c, s, ChMode(c));
    if v != 2 {
      var env, env' := Values(k, u, rk), Values(k, u', rk);
      StepReads(k, u, ChSel(c), env);
      forall q | q in Step(k, u, ChSel(c), env).rd ensures env(q) == env'(q) {
        BelowSelection(k, u, u', rk, c, s, q);
      }
      StepAgree(k, u, u', ChSel(c), env, env');
      EvalStep(k, u, rk, ChSel(c));
      EvalStep(k, u', rk, ChSel(c));
    }
  }

  /** Where Symbol.assignable is wrong about a choice symbol: in y mode it never offers n, although
      every symbol but the selection is n; in m mode it goes by selects and implies, which do not
      affect choice symbols: it offers y or withholds m because of them, and withholds n from
      selected symbols. */
  ghost predicate Misjudged(k: Config, u: Input, rk: Rank, s: nat, v: Tri) {
    var d := k.Sym(s);
    var rev := ExprOf(k, u, rk, d.revDep);
    d.choice.Some? &&
    match VisOf(k, u, rk, s)
    case 2 => v == 0 && SelOf(k, u, rk, d.choice.value) != Some(s)
    case 1 => rev == 2 || (rev == 1 && v == 0) || (rev == 0 && ExprOf(k, u, rk, d.weakRevDep) == 2 && v != 0)
    case _ => false
  }

  /** A value is offered for a choice symbol exactly if the symbol is visible and setting the value
      has the desired effect, in all cases but those. */
  lemma MemberAssignableIsExact(k: Config, u: Input, rk: Rank, s: nat, v: Tri)
    requires WellFormed(k) && Ranked(k, rk) && InputOk(k, u) && s < |k.syms| && k.Sym(s).choice.Some?
    requires ChoiceSane(k, k.Sym(s).choice.value) && k.Choice(k.Sym(s).choice.value).ty.Logic()
    ensures AssignableExact(k, u, rk, s, v) <==> !Misjudged(k, u, rk, s, v)
  {
    hide Eval;
    var c := k.Sym(s).choice.value;
    var u' := SetSym(k, u, s, Num(v));
    assert s in k.Choice(c).syms && k.Sym(s).ty.Logic();
    SetMemberKeeps(k, u, rk, c, s, v);
    VisibilityIsMode(k, u, rk, c, s);
    MemberValue(k, u', rk, c, s);
    SelectionIsVisible(k, u', rk, c);
    EvalStep(k, u, rk, SymAsg(s));
    GetValue(k, u, rk, SymVis(s));
    assert v == 2 ==> u'.Sel(c) == Some(s);
    assert u'.Val(s) == if Accepted(k.Sym(s).ty, Num(v)).Some? then TriVal(v) else u.Val(s);
  }
}
