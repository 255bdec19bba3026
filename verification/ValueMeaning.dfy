/** What the values of symbols and choices are in terms of their declared prompts, defaults and
    ranges: which default and which range wins, and what becomes of a user value. */
module ValueMeaning {
  import opened Wrappers
  import opened Tristate
  import opened Numbers
  import opened Expressions
  import opened Evaluation
  import opened Semantics
  import opened ValueLaws

  // Atoms and types

  /** The string value of a symbol or constant in an expression. */
  ghost function TextOf(k: Config, u: Input, rk: Rank, a: Atom): string {
    match a
    case Const(name) => name
    case Sym(s) => StrOf(k, u, rk, s)
  }

  /** ... and its tristate value. */
  ghost function ValueOf(k: Config, u: Input, rk: Rank, a: Atom): Tri {
    match a
    case Const(name) => if name == "y" then 2 else if name == "m" then 1 else 0
    case Sym(s) => TriOf(k, u, rk, s)
  }

  ghost predicate ModulesOn(k: Config, u: Input, rk: Rank) {
    k.modules.Some? && TriOf(k, u, rk, k.modules.value) != 0
  }

  /** Can the symbol be m? Tristate symbols are bool in choices in y mode, and while MODULES
      is n. */
  ghost predicate CanBeM(k: Config, u: Input, rk: Rank, s: nat) {
    && k.Sym(s).ty.Tristate? && ModulesOn(k, u, rk)
    && (k.Sym(s).choice.Some? ==> ModeOf(k, u, rk, k.Sym(s).choice.value) != 2)
  }

  ghost predicate ChoiceCanBeM(k: Config, u: Input, rk: Rank, c: nat) {
    k.Choice(c).ty.Tristate? && ModulesOn(k, u, rk)
  }

  lemma AtomIs(k: Config, u: Input, rk: Rank, a: Atom)
    ensures AtomTri(a, Values(k, u, rk)).v == ValueOf(k, u, rk, a) && AtomStr(a, Values(k, u, rk)).v == TextOf(k, u, rk, a)
  {
    if a.Sym? {
      GetValue(k, u, rk, SymTri(a.id));
      GetValue(k, u, rk, SymStr(a.id));
    }
  }

  lemma TypeIs(k: Config, u: Input, rk: Rank, s: nat)
    ensures SymType(k, s, Values(k, u, rk)).v.Tristate? <==> CanBeM(k, u, rk, s)
    ensures k.Sym(s).ty.Logic() ==> (SymType(k, s, Values(k, u, rk)).v.Bool? <==> !CanBeM(k, u, rk, s))
  {
    if k.modules.Some? { GetValue(k, u, rk, SymTri(k.modules.value)); }
    if k.Sym(s).choice.Some? { GetValue(k, u, rk, ChMode(k.Sym(s).choice.value)); }
  }

  lemma ChoiceTypeIs(k: Config, u: Input, rk: Rank, c: nat)
    ensures ChType(k, c, Values(k, u, rk)).v.Tristate? <==> ChoiceCanBeM(k, u, rk, c)
    ensures k.Choice(c).ty.Logic() ==> (ChType(k, c, Values(k, u, rk)).v.Bool? <==> !ChoiceCanBeM(k, u, rk, c))
  {
    if k.modules.Some? { GetValue(k, u, rk, SymTri(k.modules.value)); }
  }

  // Expressions

  /** The number that a symbol or constant stands for in a comparison, if it is one. */
  ghost function NumberOf(k: Config, u: Input, rk: Rank, a: Atom): Option<int> {
    if k.TypeOf(a).Logic() then Some(ValueOf(k, u, rk, a)) else ParseInt(TextOf(k, u, rk, a), k.TypeOf(a).Base())
  }

  /** Are the operands compared as numbers? Two strings never are. */
  ghost predicate Numeric(k: Config, u: Input, rk: Rank, a: Atom, b: Atom) {
    && !(k.TypeOf(a).String? && k.TypeOf(b).String?)
    && NumberOf(k, u, rk, a).Some? && NumberOf(k, u, rk, b).Some?
  }

  /** Is the first operand before the second one, as numbers or in the order of texts? */
  ghost predicate Below(k: Config, u: Input, rk: Rank, a: Atom, b: Atom) {
    if Numeric(k, u, rk, a, b) then NumberOf(k, u, rk, a).value < NumberOf(k, u, rk, b).value
    else TextBelow(TextOf(k, u, rk, a), TextOf(k, u, rk, b))
  }

  ghost predicate Alike(k: Config, u: Input, rk: Rank, a: Atom, b: Atom) {
    if Numeric(k, u, rk, a, b) then NumberOf(k, u, rk, a) == NumberOf(k, u, rk, b)
    else TextOf(k, u, rk, a) == TextOf(k, u, rk, b)
  }

  ghost predicate Related(k: Config, u: Input, rk: Rank, rel: Rel, a: Atom, b: Atom) {
    match rel
    case Equal => Alike(k, u, rk, a, b)
    case Unequal => !Alike(k, u, rk, a, b)
    case Less => Below(k, u, rk, a, b)
    case LessEqual => Below(k, u, rk, a, b) || Alike(k, u, rk, a, b)
    case Greater => Below(k, u, rk, b, a)
    case GreaterEqual => Below(k, u, rk, b, a) || Alike(k, u, rk, a, b)
  }

  lemma AtomNumberIs(k: Config, u: Input, rk: Rank, a: Atom)
    ensures AtomNum(k, a, Values(k, u, rk)).v == NumberOf(k, u, rk, a)
  {
    hide ParseInt, ValueOf, TextOf, AtomTri, AtomStr;
    AtomIs(k, u, rk, a);
  }

  lemma ComparisonIs(k: Config, u: Input, rk: Rank, a: Atom, b: Atom)
    ensures var c := CompareAtoms(k, a, b, Values(k, u, rk)).v;
            (c < 0 <==> Below(k, u, rk, a, b)) && (c == 0 <==> Alike(k, u, rk, a, b)) && (c > 0 <==> Below(k, u, rk, b, a))
  {
    hide TextBelow, StrCmp, ParseInt, ValueOf, TextOf, NumberOf, AtomNum, AtomStr;
    AtomIs(k, u, rk, a);
    AtomIs(k, u, rk, b);
    AtomNumberIs(k, u, rk, a);
    AtomNumberIs(k, u, rk, b);
    StrCmpIs(TextOf(k, u, rk, a), TextOf(k, u, rk, b));
  }

  /** What an expression evaluates to: && is the minimum, || the maximum, ! turns values around,
      and comparisons hold (y) or do not hold (n) in the order of numbers or texts. */
  lemma ExpressionIs(k: Config, u: Input, rk: Rank, e: Expr)
    ensures ExprOf(k, u, rk, e) ==
            match e
            case Leaf(a) => ValueOf(k, u, rk, a)
            case Mode(c) => ModeOf(k, u, rk, c)
            case And(l, r) => Min(ExprOf(k, u, rk, l), ExprOf(k, u, rk, r))
            case Or(l, r) => Max(ExprOf(k, u, rk, l), ExprOf(k, u, rk, r))
            case Not(x) => 2 - ExprOf(k, u, rk, x)
            case Cmp(rel, a, b) => if Related(k, u, rk, rel, a, b) then 2 else 0
  {
    hide CompareAtoms, Below, Alike;
    match e
    case Leaf(a) => AtomIs(k, u, rk, a);
    case Mode(c) => GetValue(k, u, rk, ChMode(c));
    case Cmp(rel, a, b) =>
      ComparisonIs(k, u, rk, a, b);
      ComparisonIs(k, u, rk, b, a);
    case _ =>
  }

  // Visibility

  /** The largest value among the conditions, or n if there are none. */
  ghost predicate Largest(k: Config, u: Input, rk: Rank, es: seq<Expr>, p: Tri) {
    (forall e :: e in es ==> ExprOf(k, u, rk, e) <= p) && (p == 0 || exists e :: e in es && ExprOf(k, u, rk, e) == p)
  }

  lemma {:induction false} PromptsAre(k: Config, u: Input, rk: Rank, es: seq<Expr>, n: nat)
    requires n <= |es|
    ensures Largest(k, u, rk, es[..n], PromptsOut(k, es, n, Values(k, u, rk)).v)
  {
    hide ExprOut;
    if n == 0 {
    } else {
      PromptsAre(k, u, rk, es, n - 1);
      assert es[..n] == es[..n - 1] + [es[n - 1]];
      assert es[n - 1] in es[..n];
    }
  }

  lemma LargestIsUnique(k: Config, u: Input, rk: Rank, es: seq<Expr>, p: Tri, p': Tri)
    requires Largest(k, u, rk, es, p) && Largest(k, u, rk, es, p')
    ensures p == p'
  {
  }

  /** A symbol is as visible as its most visible prompt, except for two kinds of choice symbols:
      bool ones in tristate choices are hidden outside y mode, and tristate ones that have only m
      prompts are hidden in y mode. A symbol that cannot be m is y visible instead. */
  lemma VisibilityIs(k: Config, u: Input, rk: Rank, s: nat, p: Tri)
    requires Ranked(k, rk) && SelsOk(k, u) && Largest(k, u, rk, k.Sym(s).prompts, p)
    ensures var d := k.Sym(s);
            VisOf(k, u, rk, s) ==
            if d.choice.Some? && k.Choice(d.choice.value).ty.Tristate? && !d.ty.Tristate?
               && ModeOf(k, u, rk, d.choice.value) != 2 then 0
            else if d.choice.Some? && d.ty.Tristate? && p == 1 && ModeOf(k, u, rk, d.choice.value) == 2 then 0
            else if p == 1 && !CanBeM(k, u, rk, s) then 2 else p
  {
    hide SymType, CanBeM, Largest;
    var ps := k.Sym(s).prompts;
    PromptsAre(k, u, rk, ps, |ps|);
    assert ps[..|ps|] == ps;
    LargestIsUnique(k, u, rk, ps, p, PromptsOut(k, ps, |ps|, Values(k, u, rk)).v);
    EvalStep(k, u, rk, SymVis(s));
    TypeIs(k, u, rk, s);
    if k.Sym(s).choice.Some? { GetValue(k, u, rk, ChMode(k.Sym(s).choice.value)); }
  }

  // Defaults

  /** Is 'i' the first default of the symbol whose condition is not n, or the number of
      defaults if there is none? */
  ghost predicate FirstDefaultIs(k: Config, u: Input, rk: Rank, s: nat, i: nat) {
    var ds := k.Sym(s).defaults;
    i <= |ds| && (forall j :: 0 <= j < i ==> ExprOf(k, u, rk, ds[j].cond) == 0) && (i < |ds| ==> ExprOf(k, u, rk, ds[i].cond) != 0)
  }

  ghost predicate FirstRangeIs(k: Config, u: Input, rk: Rank, s: nat, i: nat) {
    var rs := k.Sym(s).ranges;
    i <= |rs| && (forall j :: 0 <= j < i ==> ExprOf(k, u, rk, rs[j].cond) == 0) && (i < |rs| ==> ExprOf(k, u, rk, rs[i].cond) != 0)
  }

  /** There always is exactly one such default, and one such range. */
  lemma {:induction false} FirstExists(k: Config, u: Input, rk: Rank, s: nat)
    ensures exists i :: FirstDefaultIs(k, u, rk, s, i) && forall j :: FirstDefaultIs(k, u, rk, s, j) ==> j == i
    ensures exists i :: FirstRangeIs(k, u, rk, s, i) && forall j :: FirstRangeIs(k, u, rk, s, j) ==> j == i
  {
    hide ExprOf;
    var ds, rs := k.Sym(s).defaults, k.Sym(s).ranges;
    var i: nat, j: nat := 0, 0;
    while i < |ds| && ExprOf(k, u, rk, ds[i].cond) == 0
      invariant i <= |ds| && forall x :: 0 <= x < i ==> ExprOf(k, u, rk, ds[x].cond) == 0
    {
      i := i + 1;
    }
    while j < |rs| && ExprOf(k, u, rk, rs[j].cond) == 0
      invariant j <= |rs| && forall x :: 0 <= x < j ==> ExprOf(k, u, rk, rs[x].cond) == 0
    {
      j := j + 1;
    }
    assert FirstDefaultIs(k, u, rk, s, i) && FirstRangeIs(k, u, rk, s, j);
  }

  lemma {:induction false} FirstTrueIs(k: Config, u: Input, rk: Rank, conds: seq<Expr>, i: nat, n: nat)
    requires i <= n <= |conds|
    requires forall j :: i <= j < n ==> ExprOf(k, u, rk, conds[j]) == 0
    requires n < |conds| ==> ExprOf(k, u, rk, conds[n]) != 0
    ensures FirstTrue(k, conds, i, Values(k, u, rk)).v ==
            if n == |conds| then None else Some((n, ExprOf(k, u, rk, conds[n])))
    decreases n - i
  {
    if i == n {
    } else {
      FirstTrueIs(k, u, rk, conds, i + 1, n);
    }
  }

  /** What default 'i' gives: the smaller of its value and its condition. */
  ghost function DefaultValue(k: Config, u: Input, rk: Rank, s: nat, i: nat): Tri {
    var ds := k.Sym(s).defaults;
    if i < |ds| then Min(ExprOf(k, u, rk, ds[i].value), ExprOf(k, u, rk, ds[i].cond)) else 0
  }

  /** ... and what it gives a string, int or hex symbol. */
  ghost function DefaultText(k: Config, u: Input, rk: Rank, s: nat, i: nat): string {
    var ds := k.Sym(s).defaults;
    if i < |ds| && ds[i].value.Leaf? then TextOf(k, u, rk, ds[i].value.atom) else ""
  }

  lemma DefaultIs(k: Config, u: Input, rk: Rank, s: nat, i: nat)
    requires FirstDefaultIs(k, u, rk, s, i)
    ensures var env := Values(k, u, rk);
            DefaultTri(k, s, env).v == DefaultValue(k, u, rk, s, i)
            && DefaultStr(k, s, env).v == if i < |k.Sym(s).defaults| then Some(DefaultText(k, u, rk, s, i)) else None
  {
    hide ExprOut, AtomStr;
    var ds := k.Sym(s).defaults;
    FirstTrueIs(k, u, rk, DefaultConds(ds), 0, i);
    if i < |ds| { AtomIs(k, u, rk, DefaultAtom(ds[i].value)); }
  }

  // Logic values

  /** The value of a bool or tristate symbol outside choices, if 'i' is its first active default:
      the user value within the limits of the visibility, or else the larger of the default and of
      an imply whose symbol has its dependencies met; then at least what selects ask for; m
      becomes y for symbols that cannot be m or are implied to y. It is written unless it is an
      invisible n that nothing asks for. */
  lemma ValueIs(k: Config, u: Input, rk: Rank, s: nat, i: nat)
    requires Ranked(k, rk) && SelsOk(k, u) && FirstDefaultIs(k, u, rk, s, i)
    requires k.Sym(s).ty.Logic() && k.Sym(s).choice.None?
    ensures var d, vis := k.Sym(s), VisOf(k, u, rk, s);
            var imply, rev := ExprOf(k, u, rk, d.weakRevDep), ExprOf(k, u, rk, d.revDep);
            var default := DefaultValue(k, u, rk, s, i);
            var implied := imply != 0 && ExprOf(k, u, rk, d.directDep) != 0;
            var own := if vis != 0 && u.Val(s).TriVal? then Min(u.Val(s).t, vis)
                       else if implied then Max(imply, default) else default;
            && TriOf(k, u, rk, s) ==
               (if Max(rev, own) == 1 && (!CanBeM(k, u, rk, s) || imply == 2) then 2 else Max(rev, own))
            && (Eval(k, u, rk, SymTri(s)).Writes() <==> vis != 0 || rev != 0 || default != 0 || implied)
  {
    hide SymType, CanBeM, DefaultTri, DefaultValue, FirstDefaultIs, ExprOut, SymVisOut, SymStrOut, SymAsgOut;
    DefaultIs(k, u, rk, s, i);
    EvalStep(k, u, rk, SymTri(s));
    GetValue(k, u, rk, SymVis(s));
    TypeIs(k, u, rk, s);
  }

  // Texts and numbers

  /** What a text counts for in ranges: the number it is in the given base, or 0. */
  ghost function Number(text: string, base: nat): int {
    match ParseInt(text, base)
    case Some(n) => n
    case None => 0
  }

  /** A string symbol has the user text if it is visible, and else its first active default. */
  lemma TextIs(k: Config, u: Input, rk: Rank, s: nat, i: nat)
    requires Ranked(k, rk) && SelsOk(k, u) && FirstDefaultIs(k, u, rk, s, i) && k.Sym(s).ty.String?
    ensures StrOf(k, u, rk, s) ==
            if VisOf(k, u, rk, s) != 0 && u.Val(s).StrVal? then u.Val(s).text else DefaultText(k, u, rk, s, i)
    ensures Eval(k, u, rk, SymStr(s)).Writes() <==>
            !k.Sym(s).hidden && (VisOf(k, u, rk, s) != 0 || i < |k.Sym(s).defaults|)
  {
    hide DefaultStr, FirstDefaultIs, ExprOut, SymVisOut, SymTriOut, SymAsgOut, NumStrOut;
    DefaultIs(k, u, rk, s, i);
    EvalStep(k, u, rk, SymStr(s));
    GetValue(k, u, rk, SymVis(s));
  }

  ghost function LowEnd(k: Config, u: Input, rk: Rank, s: nat, j: nat): int {
    var d := k.Sym(s);
    if j < |d.ranges| then Number(TextOf(k, u, rk, d.ranges[j].low), d.ty.Base()) else 0
  }

  ghost function HighEnd(k: Config, u: Input, rk: Rank, s: nat, j: nat): int {
    var d := k.Sym(s);
    if j < |d.ranges| then Number(TextOf(k, u, rk, d.ranges[j].high), d.ty.Base()) else 0
  }

  lemma RangeIs(k: Config, u: Input, rk: Rank, s: nat, j: nat)
    requires FirstRangeIs(k, u, rk, s, j)
    ensures ActiveRange(k, s, Values(k, u, rk)).v ==
            if j < |k.Sym(s).ranges| then Some((LowEnd(k, u, rk, s, j), HighEnd(k, u, rk, s, j))) else None
  {
    hide ExprOut, AtomStr, TextOf, ParseInt;
    var rs := k.Sym(s).ranges;
    FirstTrueIs(k, u, rk, RangeConds(rs), 0, j);
    if j < |rs| {
      AtomIs(k, u, rk, rs[j].low);
      AtomIs(k, u, rk, rs[j].high);
    }
  }

  /** Is 'n' within the first active range, or is there none? */
  ghost predicate Fits(k: Config, u: Input, rk: Rank, s: nat, j: nat, n: int) {
    j < |k.Sym(s).ranges| ==> LowEnd(k, u, rk, s, j) <= n <= HighEnd(k, u, rk, s, j)
  }

  /** An int or hex symbol whose first active default is 'i' and whose first active range is 'j'
      has the user's text, as it was written, if it is visible and the user's number fits the
      range. Otherwise it has the text of its default if that fits, or else the nearer end of the
      range, written out. Unless the range is empty, its number lies in the range. */
  lemma NumberIs(k: Config, u: Input, rk: Rank, s: nat, i: nat, j: nat)
    requires Ranked(k, rk) && SelsOk(k, u) && (k.Sym(s).ty.Int? || k.Sym(s).ty.Hex?)
    requires FirstDefaultIs(k, u, rk, s, i) && FirstRangeIs(k, u, rk, s, j)
    ensures var base, vis, user := k.Sym(s).ty.Base(), VisOf(k, u, rk, s), u.Val(s);
            var str, default := StrOf(k, u, rk, s), DefaultText(k, u, rk, s, i);
            var low, high := LowEnd(k, u, rk, s, j), HighEnd(k, u, rk, s, j);
            && (if vis != 0 && user.StrVal? && user.text != "" && Fits(k, u, rk, s, j, Number(user.text, base))
                then str == user.text
                else if Fits(k, u, rk, s, j, Number(default, base)) then str == default
                else if Number(default, base) < low then str == IntText(low, base) && Number(str, base) == low
                else str == IntText(high, base) && Number(str, base) == high)
            && (j < |k.Sym(s).ranges| && low <= high ==> low <= Number(str, base) <= high)
            && (Eval(k, u, rk, SymStr(s)).Writes() <==> !k.Sym(s).hidden && (vis != 0 || i < |k.Sym(s).defaults|))
  {
    hide DefaultStr, FirstDefaultIs, FirstRangeIs, ActiveRange, ExprOut, SymVisOut, SymTriOut, SymAsgOut, TextStrOut,
      ParseInt, IntText, LowEnd, HighEnd, TextOf;
    DefaultIs(k, u, rk, s, i);
    RangeIs(k, u, rk, s, j);
    EvalStep(k, u, rk, SymStr(s));
    GetValue(k, u, rk, SymVis(s));
    IntTextRoundTrip(LowEnd(k, u, rk, s, j), k.Sym(s).ty.Base());
    IntTextRoundTrip(HighEnd(k, u, rk, s, j), k.Sym(s).ty.Base());
  }

  /** The string value of the other symbols: n, m or y, and the name of an undefined symbol. */
  lemma OtherTextIs(k: Config, u: Input, rk: Rank, s: nat)
    requires Ranked(k, rk) && SelsOk(k, u)
    ensures k.Sym(s).ty.Unknown? ==> StrOf(k, u, rk, s) == k.Sym(s).name
    ensures k.Sym(s).ty.Logic() ==>
              StrOf(k, u, rk, s) == match TriOf(k, u, rk, s) case 0 => "n" case 1 => "m" case 2 => "y"
    ensures !k.Sym(s).ty.Logic() ==> TriOf(k, u, rk, s) == 0
  {
    EvalStep(k, u, rk, SymStr(s));
    EvalStep(k, u, rk, SymTri(s));
    GetValue(k, u, rk, SymTri(s));
  }

  /** What counts as the default when a minimal file is written. Unlike in ValueIs, an imply
      counts even if the dependencies are not met, and does not turn m into y. */
  lemma MinimalDefaultIs(k: Config, u: Input, rk: Rank, s: nat, i: nat)
    requires FirstDefaultIs(k, u, rk, s, i)
    ensures var d := k.Sym(s);
            var val := Max(ExprOf(k, u, rk, d.revDep), Max(ExprOf(k, u, rk, d.weakRevDep), DefaultValue(k, u, rk, s, i)));
            StrDefault(k, s, Values(k, u, rk)) ==
            if d.ty.Logic() then
              if d.choice.Some? || val == 0 then "n"
              else if val == 2 || !CanBeM(k, u, rk, s) then "y" else "m"
            else if d.ty.Unknown? then "" else DefaultText(k, u, rk, s, i)
  {
    hide SymType, CanBeM, DefaultTri, DefaultStr, DefaultValue, FirstDefaultIs, ExprOut;
    DefaultIs(k, u, rk, s, i);
    TypeIs(k, u, rk, s);
  }
}
