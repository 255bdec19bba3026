/** Laws of the computed values, for every configuration and every input. */
module ValueLaws {
  import opened Wrappers
  import opened Tristate
  import opened Numbers
  import opened Expressions
  import opened Evaluation
  import opened Semantics
  import opened Dependencies
  import opened Inputs

  // Values from scratch, by name

  ghost function VisOf(k: Config, u: Input, rk: Rank, s: nat): Tri { Eval(k, u, rk, SymVis(s)).AsTri() }
  ghost function TriOf(k: Config, u: Input, rk: Rank, s: nat): Tri { Eval(k, u, rk, SymTri(s)).AsTri() }
  ghost function StrOf(k: Config, u: Input, rk: Rank, s: nat): string { Eval(k, u, rk, SymStr(s)).AsStr() }
  ghost function ModeOf(k: Config, u: Input, rk: Rank, c: nat): Tri { Eval(k, u, rk, ChMode(c)).AsTri() }
  ghost function SelOf(k: Config, u: Input, rk: Rank, c: nat): Option<nat> { Eval(k, u, rk, ChSel(c)).AsSel() }
  ghost function ExprOf(k: Config, u: Input, rk: Rank, e: Expr): Tri { ExprOut(k, e, Values(k, u, rk)).v }

  // Choice modes

  /** Is the mode of choice 'c' a conjunct of 'e'? */
  predicate HasMode(e: Expr, c: nat) {
    e == Mode(c) || (e.And? && (HasMode(e.left, c) || HasMode(e.right, c)))
  }

  /** ... or 'e' constantly n? */
  predicate Limited(e: Expr, c: nat) {
    e == N || HasMode(e, c)
  }

  lemma {:induction false} HasModeBounds(k: Config, e: Expr, c: nat, env: Env)
    requires HasMode(e, c)
    ensures ExprOut(k, e, env).v <= GetTri(env, ChMode(c)) && ChItem(c) in ExprItems(e)
  {
    if e.And? {
      if HasMode(e.left, c) { HasModeBounds(k, e.left, c, env); } else { HasModeBounds(k, e.right, c, env); }
    }
  }

  lemma LimitedByMode(k: Config, e: Expr, c: nat, env: Env)
    requires Limited(e, c)
    ensures ExprOut(k, e, env).v <= GetTri(env, ChMode(c))
  {
    if HasMode(e, c) { HasModeBounds(k, e, c, env); }
  }

  lemma {:induction false} PromptsLimited(k: Config, ps: seq<Expr>, n: nat, c: nat, env: Env)
    requires n <= |ps| && forall e :: e in ps ==> Limited(e, c)
    ensures PromptsOut(k, ps, n, env).v <= GetTri(env, ChMode(c))
  {
    if n == 0 {
    } else {
      PromptsLimited(k, ps, n - 1, c, env);
      LimitedByMode(k, ps[n - 1], c, env);
    }
  }

  /** The symbols of the choice are bool or tristate, belong to no other choice, and
      have prompts only inside it. */
  ghost predicate ChoiceSane(k: Config, c: nat) {
    forall s :: s in k.Choice(c).syms ==>
      && k.Sym(s).choice == Some(c) && k.Sym(s).ty.Logic()
      && forall e :: e in k.Sym(s).prompts ==> Limited(e, c)
  }

  /** The mode is an upper bound on the visibility of a choice symbol, except that m is
      promoted to y for symbols that cannot be m; in y mode there is no m visibility. */
  lemma MemberVisibility(k: Config, u: Input, rk: Rank, c: nat, s: nat)
    requires Ranked(k, rk) && SelsOk(k, u) && ChoiceSane(k, c) && s in k.Choice(c).syms
    ensures ModeOf(k, u, rk, c) == 0 ==> VisOf(k, u, rk, s) == 0
    ensures ModeOf(k, u, rk, c) == 2 ==> VisOf(k, u, rk, s) != 1
  {
    var env := Values(k, u, rk);
    EvalStep(k, u, rk, SymVis(s));
    GetValue(k, u, rk, ChMode(c));
    PromptsLimited(k, k.Sym(s).prompts, |k.Sym(s).prompts|, c, env);
  }

  lemma MemberValue(k: Config, u: Input, rk: Rank, c: nat, s: nat)
    requires Ranked(k, rk) && SelsOk(k, u) && ChoiceSane(k, c) && s in k.Choice(c).syms
    ensures var vis := VisOf(k, u, rk, s);
            TriOf(k, u, rk, s) ==
            if vis == 2 then (if SelOf(k, u, rk, c) == Some(s) then 2 else 0)
            else if vis == 1 && u.Val(s).TriVal? && u.Val(s).t != 0 then 1
            else 0
  {
    EvalStep(k, u, rk, SymTri(s));
    GetValue(k, u, rk, SymVis(s));
    GetValue(k, u, rk, ChSel(c));
  }

  lemma {:induction false} FirstVisibleFinds(k: Config, u: Input, rk: Rank, syms: seq<nat>, i: nat)
    requires i <= |syms|
    ensures var r := FirstVisible(syms, i, Values(k, u, rk)).v;
            if r.Some? then r.value in syms[i..] && VisOf(k, u, rk, r.value) != 0
            else forall s :: s in syms[i..] ==> VisOf(k, u, rk, s) == 0
    decreases |syms| - i
  {
    hide Eval;
    if i == |syms| {
    } else {
      GetValue(k, u, rk, SymVis(syms[i]));
      FirstVisibleFinds(k, u, rk, syms, i + 1);
      assert syms[i..] == [syms[i]] + syms[i + 1..];
    }
  }

  lemma {:induction false} FirstDefaultFinds(k: Config, u: Input, rk: Rank, ds: seq<ChoiceDefault>, i: nat)
    requires i <= |ds|
    ensures var r := FirstDefault(k, ds, i, Values(k, u, rk)).v;
            r.Some? ==> VisOf(k, u, rk, r.value) != 0
                        && exists j :: i <= j < |ds| && ds[j].atom == Sym(r.value)
    decreases |ds| - i
  {
    if i == |ds| {
    } else {
      if ds[i].atom.Sym? { GetValue(k, u, rk, SymVis(ds[i].atom.id)); }
      FirstDefaultFinds(k, u, rk, ds, i + 1);
    }
  }

  lemma DefaultSelectionFinds(k: Config, u: Input, rk: Rank, c: nat)
    requires ChoicesOk(k)
    ensures var r := DefaultSelection(k, c, Values(k, u, rk)).v;
            if r.Some? then r.value in k.Choice(c).syms && VisOf(k, u, rk, r.value) != 0
            else !AnyVisible(k, u, rk, c)
  {
    hide FirstDefault, FirstVisible, Eval, Mentions;
    var d := k.Choice(c);
    FirstDefaultFinds(k, u, rk, d.defaults, 0);
    var r := FirstDefault(k, d.defaults, 0, Values(k, u, rk)).v;
    if r.Some? {
      var j :| 0 <= j < |d.defaults| && d.defaults[j].atom == Sym(r.value);
      assert k.Choice(c).defaults[j].atom.id in d.syms;
    }
    FirstVisibleFinds(k, u, rk, d.syms, 0);
    assert d.syms[0..] == d.syms;
  }

  /** The selection: a visible symbol of the choice, if it is in y mode and has one, and
      the user's own selection if that is visible. */
  lemma SelectionIsVisible(k: Config, u: Input, rk: Rank, c: nat)
    requires Ranked(k, rk) && SelsOk(k, u) && ChoicesOk(k)
    ensures var sel := SelOf(k, u, rk, c);
            if ModeOf(k, u, rk, c) == 2 && AnyVisible(k, u, rk, c)
            then sel.Some? && sel.value in k.Choice(c).syms && VisOf(k, u, rk, sel.value) != 0
            else sel.None?
    ensures ModeOf(k, u, rk, c) == 2 && u.Sel(c).Some? && VisOf(k, u, rk, u.Sel(c).value) != 0 ==>
              SelOf(k, u, rk, c) == u.Sel(c)
  {
    hide DefaultSelection, ChoicesOk, SymVisOut, SymTriOut, SymStrOut, ChVisOut, ChModeOut, Eval;
    EvalStep(k, u, rk, ChSel(c));
    GetValue(k, u, rk, ChMode(c));
    if u.Sel(c).Some? { GetValue(k, u, rk, SymVis(u.Sel(c).value)); }
    DefaultSelectionFinds(k, u, rk, c);
  }

  ghost predicate AnyVisible(k: Config, u: Input, rk: Rank, c: nat) {
    exists s :: s in k.Choice(c).syms && VisOf(k, u, rk, s) != 0
  }

  ghost predicate AllN(k: Config, u: Input, rk: Rank, c: nat) {
    forall s :: s in k.Choice(c).syms ==> TriOf(k, u, rk, s) == 0
  }

  /** Symbol 'chosen' of the choice is y and the others are n. */
  ghost predicate OnlyY(k: Config, u: Input, rk: Rank, c: nat, chosen: nat) {
    chosen in k.Choice(c).syms
    && forall s :: s in k.Choice(c).syms ==> TriOf(k, u, rk, s) == if s == chosen then 2 else 0
  }

  /** What the three modes of a choice promise, for all user values and selections:
      n mode: everything is n; m mode: n or m, as the user says; y mode: exactly one
      symbol, the selection, is y and the others are n, if any of them is visible. */
  lemma ChoiceModes(k: Config, u: Input, rk: Rank, c: nat)
    requires Ranked(k, rk) && SelsOk(k, u) && ChoicesOk(k) && ChoiceSane(k, c)
    ensures ModeOf(k, u, rk, c) == 0 ==> AllN(k, u, rk, c)
    ensures ModeOf(k, u, rk, c) == 1 ==> forall s :: s in k.Choice(c).syms ==>
              TriOf(k, u, rk, s) ==
              if VisOf(k, u, rk, s) == 1 && u.Val(s).TriVal? && u.Val(s).t != 0 then 1 else 0
    ensures ModeOf(k, u, rk, c) == 2 ==>
              if AnyVisible(k, u, rk, c)
              then SelOf(k, u, rk, c).Some? && OnlyY(k, u, rk, c, SelOf(k, u, rk, c).value)
              else SelOf(k, u, rk, c).None? && AllN(k, u, rk, c)
  {
    hide VisOf, TriOf, ModeOf, SelOf, ChoiceSane, ChoicesOk;
    SelectionIsVisible(k, u, rk, c);
    var mode, sel := ModeOf(k, u, rk, c), SelOf(k, u, rk, c);
    forall s | s in k.Choice(c).syms
      ensures TriOf(k, u, rk, s) ==
              if mode == 2 then (if sel == Some(s) then 2 else 0)
              else if mode == 1 && VisOf(k, u, rk, s) == 1 && u.Val(s).TriVal? && u.Val(s).t != 0 then 1 else 0
    {
      MemberVisibility(k, u, rk, c, s);
      MemberValue(k, u, rk, c, s);
    }
  }

  /** Setting a choice symbol to y makes it the only y symbol of its choice, exactly if
      the choice then is in y mode and the symbol visible. */
  lemma SettingToYSelects(k: Config, u: Input, rk: Rank, s: nat)
    requires WellFormed(k) && Ranked(k, rk) && InputOk(k, u)
    requires s < |k.syms| && k.Sym(s).choice.Some? && ChoiceSane(k, k.Sym(s).choice.value)
    ensures var c := k.Sym(s).choice.value;
            var u' := SetSym(k, u, s, Num(2));
            OnlyY(k, u', rk, c, s) <==> ModeOf(k, u', rk, c) == 2 && VisOf(k, u', rk, s) != 0
  {
    hide VisOf, TriOf, ModeOf, SelOf;
    var c := k.Sym(s).choice.value;
    var u' := SetSym(k, u, s, Num(2));
    SetSymOk(k, u, s, Num(2));
    assert u'.Sel(c) == Some(s);
    ChoiceModes(k, u', rk, c);
    SelectionIsVisible(k, u', rk, c);
    MemberValue(k, u', rk, c, s);
  }

  // Assignable values

  /** The user value of a logic symbol enters the evaluation at its tri_value only. */
  lemma {:induction false} BelowUserValue(k: Config, u: Input, u': Input, rk: Rank, s: nat, r: Slot)
    requires Ranked(k, rk) && SelsOk(k, u) && SelsOk(k, u')
    requires k.Sym(s).ty.Logic() && RankOf(rk, r) < RankOf(rk, SymTri(s))
    requires u.modes == u'.modes && u.sels == u'.sels
    requires forall x: nat :: x != s ==> u.Val(x) == u'.Val(x)
    ensures Eval(k, u, rk, r) == Eval(k, u', rk, r)
    decreases rk(r)
  {
    var env, env' := Values(k, u, rk), Values(k, u', rk);
    StepReads(k, u, r, env);
    forall q | q in Step(k, u, r, env).rd ensures env(q) == env'(q) {
      BelowUserValue(k, u, u', rk, s, q);
    }
    assert forall x: nat :: u.Mode(x) == u'.Mode(x) && u.Sel(x) == u'.Sel(x);
    assert Step(k, u, r, env) == Step(k, u', r, env);
    StepAgree(k, u', u', r, env, env');
    EvalStep(k, u, rk, r);
    EvalStep(k, u', rk, r);
  }

  /** tri_value of a symbol after its own user value has been set: everything else that
      it depends on is as before. */
  lemma TriAfterSet(k: Config, u: Input, rk: Rank, s: nat, v: Tri)
    requires Ranked(k, rk) && InputOk(k, u)
    requires s < |k.syms| && k.Sym(s).ty.Logic() && k.Sym(s).choice.None?
    ensures var u' := SetSym(k, u, s, Num(v));
            TriOf(k, u', rk, s)
            == PlainTriOut(k, u'.Val(s), s, VisOf(k, u, rk, s), Values(k, u, rk)).v.0
  {
    var u' := SetSym(k, u, s, Num(v));
    var env, env' := Values(k, u, rk), Values(k, u', rk);
    SetSymOk(k, u, s, Num(v));
    StepReads(k, u', SymTri(s), env);
    forall q | q in Step(k, u', SymTri(s), env).rd ensures env(q) == env'(q) {
      BelowUserValue(k, u, u', rk, s, q);
    }
    StepAgree(k, u', u', SymTri(s), env, env');
    EvalStep(k, u', rk, SymTri(s));
    GetValue(k, u, rk, SymVis(s));
  }

  /** The one case in which Symbol.assignable is wrong: it offers m, while tri_value
      promotes m to y because of the imply. */
  ghost predicate PromotedByImply(k: Config, u: Input, rk: Rank, s: nat) {
    && VisOf(k, u, rk, s) == 1 && ExprOf(k, u, rk, k.Sym(s).revDep) == 1
    && ExprOf(k, u, rk, k.Sym(s).weakRevDep) == 2 && !SymType(k, s, Values(k, u, rk)).v.Bool?
  }

  ghost predicate AssignableExact(k: Config, u: Input, rk: Rank, s: nat, v: Tri) {
    v in Eval(k, u, rk, SymAsg(s)).AsAsg()
    <==> VisOf(k, u, rk, s) != 0 && TriOf(k, SetSym(k, u, s, Num(v)), rk, s) == v
  }

  lemma AssignableValue(k: Config, u: Input, rk: Rank, s: nat, v: Tri)
    requires Ranked(k, rk) && InputOk(k, u)
    requires s < |k.syms| && k.Sym(s).ty.Logic() && k.Sym(s).choice.None?
    ensures !PromotedByImply(k, u, rk, s) ==> AssignableExact(k, u, rk, s, v)
    ensures PromotedByImply(k, u, rk, s) && v == 1 ==> !AssignableExact(k, u, rk, s, v)
  {
    hide Eval;
    TriAfterSet(k, u, rk, s, v);
    EvalStep(k, u, rk, SymAsg(s));
    GetValue(k, u, rk, SymVis(s));
    if VisOf(k, u, rk, s) == 1 { VisNeedsTristate(k, u, rk, s); }
    assert SetSym(k, u, s, Num(v)).Val(s) ==
      if Accepted(k.Sym(s).ty, Num(v)).Some? then TriVal(v) else u.Val(s);
  }

  lemma VisNeedsTristate(k: Config, u: Input, rk: Rank, s: nat)
    requires Ranked(k, rk) && SelsOk(k, u) && VisOf(k, u, rk, s) == 1
    ensures SymType(k, s, Values(k, u, rk)).v.Tristate?
  {
    EvalStep(k, u, rk, SymVis(s));
  }

  /** Symbol.assignable is exact for all three values if and only if the symbol is not
      at once m-visible, selected to m and implied to y. */
  lemma AssignableIsExact(k: Config, u: Input, rk: Rank, s: nat)
    requires Ranked(k, rk) && InputOk(k, u)
    requires s < |k.syms| && k.Sym(s).ty.Logic() && k.Sym(s).choice.None?
    ensures (forall v: Tri :: AssignableExact(k, u, rk, s, v)) <==> !PromotedByImply(k, u, rk, s)
  {
    hide Eval;
    forall v: Tri ensures !PromotedByImply(k, u, rk, s) ==> AssignableExact(k, u, rk, s, v) {
      AssignableValue(k, u, rk, s, v);
    }
    AssignableValue(k, u, rk, s, 1);
  }

  // Assignable modes

  /** The mode of a choice after the user has set it. */
  lemma ModeAfterSet(k: Config, u: Input, rk: Rank, c: nat, v: Tri)
    requires Ranked(k, rk) && InputOk(k, u) && c < |k.choices|
    ensures var u' := SetMode(k, u, c, Num(v));
            ModeOf(k, u', rk, c) == ChModeOut(k, u'.Mode(c), c, Values(k, u, rk)).v
  {
    var u' := SetMode(k, u, c, Num(v));
    var env, env' := Values(k, u, rk), Values(k, u', rk);
    SetModeOk(k, u, c, Num(v));
    StepReads(k, u', ChMode(c), env);
    forall q | q in Step(k, u', ChMode(c), env).rd ensures env(q) == env'(q) {
      BelowUserMode(k, u, u', rk, c, q);
    }
    StepAgree(k, u', u', ChMode(c), env, env');
    EvalStep(k, u', rk, ChMode(c));
  }

  /** The user mode of a choice enters the evaluation at its mode only. */
  lemma {:induction false} BelowUserMode(k: Config, u: Input, u': Input, rk: Rank, c: nat, r: Slot)
    requires Ranked(k, rk) && SelsOk(k, u) && SelsOk(k, u')
    requires RankOf(rk, r) < RankOf(rk, ChMode(c))
    requires u.vals == u'.vals && u.sels == u'.sels
    requires forall x: nat :: x != c ==> u.Mode(x) == u'.Mode(x)
    ensures Eval(k, u, rk, r) == Eval(k, u', rk, r)
    decreases rk(r)
  {
    var env, env' := Values(k, u, rk), Values(k, u', rk);
    StepReads(k, u, r, env);
    forall q | q in Step(k, u, r, env).rd ensures env(q) == env'(q) {
      BelowUserMode(k, u, u', rk, c, q);
    }
    assert forall x: nat :: u.Val(x) == u'.Val(x) && u.Sel(x) == u'.Sel(x);
    assert Step(k, u, r, env) == Step(k, u', r, env);
    StepAgree(k, u', u', r, env, env');
    EvalStep(k, u, rk, r);
    EvalStep(k, u', rk, r);
  }

  /** Choice.assignable is exact: a mode is assignable if and only if the choice is
      visible and setting the mode has the desired effect. */
  lemma AssignableModeIsExact(k: Config, u: Input, rk: Rank, c: nat, v: Tri)
    requires Ranked(k, rk) && InputOk(k, u) && c < |k.choices| && k.Choice(c).ty.Logic()
    ensures v in Eval(k, u, rk, ChAsg(c)).AsAsg()
            <==> Eval(k, u, rk, ChVis(c)).AsTri() != 0 && ModeOf(k, SetMode(k, u, c, Num(v)), rk, c) == v
  {
    ModeAfterSet(k, u, rk, c, v);
    EvalStep(k, u, rk, ChAsg(c));
    EvalStep(k, u, rk, ChVis(c));
    GetValue(k, u, rk, ChVis(c));
    assert SetMode(k, u, c, Num(v)).Mode(c) ==
      if Accepted(k.Choice(c).ty, Num(v)).Some? then Some(v) else u.Mode(c);
  }

  // Ranges

  lemma ClampedInRange(val: string, base: nat, range: (int, int))
    requires (base == 10 || base == 16) && range.0 <= range.1
    ensures range.0 <= NumOrZero(Clamped(val, base, Some(range)), base) <= range.1
  {
    hide ParseInt, IntText;
    IntTextRoundTrip(range.0, base);
    IntTextRoundTrip(range.1, base);
  }

  /** An int or hex symbol stays within its active range, read as a number of its base
      (with anything that is no number counting as 0), whatever its user value and its
      defaults are. */
  lemma RangeSafety(k: Config, u: Input, rk: Rank, s: nat)
    requires Ranked(k, rk) && SelsOk(k, u) && (k.Sym(s).ty.Int? || k.Sym(s).ty.Hex?)
    ensures var range := ActiveRange(k, s, Values(k, u, rk)).v;
            range.Some? && range.value.0 <= range.value.1 ==>
              range.value.0 <= NumOrZero(StrOf(k, u, rk, s), k.Sym(s).ty.Base()) <= range.value.1
  {
    hide NumOrZero, Clamped, ActiveRange, DefaultStr;
    EvalStep(k, u, rk, SymStr(s));
    var env := Values(k, u, rk);
    var range := ActiveRange(k, s, env).v;
    if range.Some? && range.value.0 <= range.value.1 {
      var def := DefaultStr(k, s, env).v;
      ClampedInRange(if def.Some? then def.value else "", k.Sym(s).ty.Base(), range.value);
    }
  }
}
