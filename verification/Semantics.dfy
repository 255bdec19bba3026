/** From-scratch evaluation of every property, as the only solution of the equations
    in module Evaluation, and the two facts that caching rests on: a property depends
    only on what was read for it, and what can be read is known statically. */
module Semantics {
  import opened Wrappers
  import opened Tristate
  import opened Numbers
  import opened Expressions
  import opened Evaluation

  // A value depends on nothing but what was read

  ghost predicate Agree(env: Env, env': Env, rd: set<Slot>) {
    forall r :: r in rd ==> env(r) == env'(r)
  }

  lemma CompareAgree(k: Config, a: Atom, b: Atom, env: Env, env': Env)
    requires Agree(env, env', CompareAtoms(k, a, b, env).rd)
    ensures CompareAtoms(k, a, b, env) == CompareAtoms(k, a, b, env')
  {
    hide ParseInt, StrCmp;
  }

  lemma {:induction false} ExprAgree(k: Config, e: Expr, env: Env, env': Env)
    requires Agree(env, env', ExprOut(k, e, env).rd)
    ensures ExprOut(k, e, env) == ExprOut(k, e, env')
  {
    hide CompareAtoms;
    match e {
      case Leaf(a) =>
      case Mode(c) =>
      case Not(x) => ExprAgree(k, x, env, env');
      case Cmp(rel, a, b) =>
        CompareAgree(k, a, b, env, env');
      case And(l, r) =>
        ExprAgree(k, l, env, env');
        if ExprOut(k, l, env).v != 0 { ExprAgree(k, r, env, env'); }
      case Or(l, r) =>
        ExprAgree(k, l, env, env');
        if ExprOut(k, l, env).v != 2 { ExprAgree(k, r, env, env'); }
    }
  }

  lemma {:induction false} PromptsAgree(k: Config, ps: seq<Expr>, n: nat, env: Env, env': Env)
    requires n <= |ps|
    requires Agree(env, env', PromptsOut(k, ps, n, env).rd)
    ensures PromptsOut(k, ps, n, env) == PromptsOut(k, ps, n, env')
  {
    if n == 0 {
    } else {
      PromptsAgree(k, ps, n - 1, env, env');
      ExprAgree(k, ps[n - 1], env, env');
    }
  }

  lemma {:induction false} FirstTrueAgree(k: Config, conds: seq<Expr>, i: nat, env: Env, env': Env)
    requires i <= |conds|
    requires Agree(env, env', FirstTrue(k, conds, i, env).rd)
    ensures FirstTrue(k, conds, i, env) == FirstTrue(k, conds, i, env')
    decreases |conds| - i
  {
    if i == |conds| {
    } else {
      ExprAgree(k, conds[i], env, env');
      if ExprOut(k, conds[i], env).v == 0 { FirstTrueAgree(k, conds, i + 1, env, env'); }
    }
  }

  lemma {:induction false} FirstDefaultAgree(k: Config, ds: seq<ChoiceDefault>, i: nat, env: Env, env': Env)
    requires i <= |ds|
    requires Agree(env, env', FirstDefault(k, ds, i, env).rd)
    ensures FirstDefault(k, ds, i, env) == FirstDefault(k, ds, i, env')
    decreases |ds| - i
  {
    if i == |ds| {
    } else {
      ExprAgree(k, ds[i].cond, env, env');
      if ExprOut(k, ds[i].cond, env).v == 0 || AtomVis(ds[i].atom, env).v == 0 || !ds[i].atom.Sym? {
        FirstDefaultAgree(k, ds, i + 1, env, env');
      }
    }
  }

  lemma {:induction false} FirstVisibleAgree(syms: seq<nat>, i: nat, env: Env, env': Env)
    requires i <= |syms|
    requires Agree(env, env', FirstVisible(syms, i, env).rd)
    ensures FirstVisible(syms, i, env) == FirstVisible(syms, i, env')
    decreases |syms| - i
  {
    if i < |syms| && AtomVis(Sym(syms[i]), env).v == 0 {
      FirstVisibleAgree(syms, i + 1, env, env');
    }
  }

  lemma VisAgree(k: Config, s: nat, env: Env, env': Env)
    requires Agree(env, env', SymVisOut(k, s, env).rd)
    ensures SymVisOut(k, s, env) == SymVisOut(k, s, env')
  {
    PromptsAgree(k, k.Sym(s).prompts, |k.Sym(s).prompts|, env, env');
  }

  lemma ChVisAgree(k: Config, c: nat, env: Env, env': Env)
    requires Agree(env, env', ChVisOut(k, c, env).rd)
    ensures ChVisOut(k, c, env) == ChVisOut(k, c, env')
  {
    PromptsAgree(k, k.Choice(c).prompts, |k.Choice(c).prompts|, env, env');
  }

  lemma NoUserAgree(k: Config, s: nat, env: Env, env': Env)
    requires Agree(env, env', NoUserTri(k, s, env).rd)
    ensures NoUserTri(k, s, env) == NoUserTri(k, s, env')
  {
    var d := k.Sym(s);
    FirstTrueAgree(k, DefaultConds(d.defaults), 0, env, env');
    var f := FirstTrue(k, DefaultConds(d.defaults), 0, env);
    if f.v.Some? { ExprAgree(k, d.defaults[f.v.value.0].value, env, env'); }
    ExprAgree(k, d.weakRevDep, env, env');
    if ExprOut(k, d.weakRevDep, env).v != 0 { ExprAgree(k, d.directDep, env, env'); }
  }

  lemma PromotedAgree(k: Config, s: nat, val: Tri, env: Env, env': Env)
    requires Agree(env, env', PromotedTri(k, s, val, env).rd)
    ensures PromotedTri(k, s, val, env) == PromotedTri(k, s, val, env')
  {
    if val == 1 && !SymType(k, s, env).v.Bool? { ExprAgree(k, k.Sym(s).weakRevDep, env, env'); }
  }

  lemma TriAgree(k: Config, user: UserVal, s: nat, env: Env, env': Env)
    requires Agree(env, env', SymTriOut(k, user, s, env).rd)
    ensures SymTriOut(k, user, s, env) == SymTriOut(k, user, s, env')
  {
    var d := k.Sym(s);
    if d.ty.Logic() && d.choice.None? {
      var vis := GetTri(env, SymVis(s));
      if vis == 0 || !user.TriVal? { NoUserAgree(k, s, env, env'); }
      ExprAgree(k, d.revDep, env, env');
      var x := Selected(BaseTri(k, user, s, vis, env).v, ExprOut(k, d.revDep, env).v);
      PromotedAgree(k, s, x.0, env, env');
    }
  }

  lemma DefaultStrAgree(k: Config, s: nat, env: Env, env': Env)
    requires Agree(env, env', DefaultStr(k, s, env).rd)
    ensures DefaultStr(k, s, env) == DefaultStr(k, s, env')
  {
    FirstTrueAgree(k, DefaultConds(k.Sym(s).defaults), 0, env, env');
  }

  lemma RangeAgree(k: Config, s: nat, env: Env, env': Env)
    requires Agree(env, env', ActiveRange(k, s, env).rd)
    ensures ActiveRange(k, s, env) == ActiveRange(k, s, env')
  {
    FirstTrueAgree(k, RangeConds(k.Sym(s).ranges), 0, env, env');
  }

  lemma NumStrAgree(k: Config, user: UserVal, s: nat, vis: Tri, env: Env, env': Env)
    requires Agree(env, env', NumStrOut(k, user, s, vis, env).rd)
    ensures NumStrOut(k, user, s, vis, env) == NumStrOut(k, user, s, vis, env')
  {
    RangeAgree(k, s, env, env');
    var range := ActiveRange(k, s, env);
    if !(vis != 0 && user.StrVal? && user.text != ""
         && InRange(NumOrZero(user.text, k.Sym(s).ty.Base()), range.v)) {
      DefaultStrAgree(k, s, env, env');
    }
  }

  lemma StrAgree(k: Config, user: UserVal, s: nat, env: Env, env': Env)
    requires Agree(env, env', SymStrOut(k, user, s, env).rd)
    ensures SymStrOut(k, user, s, env) == SymStrOut(k, user, s, env')
  {
    var d := k.Sym(s);
    var vis := GetTri(env, SymVis(s));
    if d.ty.String? && !(vis != 0 && user.StrVal?) {
      DefaultStrAgree(k, s, env, env');
    } else if d.ty.Int? || d.ty.Hex? {
      NumStrAgree(k, user, s, vis, env, env');
    }
  }

  lemma AsgAgree(k: Config, s: nat, env: Env, env': Env)
    requires Agree(env, env', SymAsgOut(k, s, env).rd)
    ensures SymAsgOut(k, s, env) == SymAsgOut(k, s, env')
  {
    var d := k.Sym(s);
    var vis := GetTri(env, SymVis(s));
    if d.ty.Logic() && vis != 0 {
      ExprAgree(k, d.revDep, env, env');
      var rev := ExprOut(k, d.revDep, env).v;
      if vis == 2 {
        if d.choice.None? && rev != 2 && !SymType(k, s, env).v.Bool? {
          ExprAgree(k, d.weakRevDep, env, env');
        }
      } else if rev == 0 {
        ExprAgree(k, d.weakRevDep, env, env');
      }
    }
  }

  lemma DefaultSelectionAgree(k: Config, c: nat, env: Env, env': Env)
    requires Agree(env, env', DefaultSelection(k, c, env).rd)
    ensures DefaultSelection(k, c, env) == DefaultSelection(k, c, env')
  {
    var d := k.Choice(c);
    FirstDefaultAgree(k, d.defaults, 0, env, env');
    if FirstDefault(k, d.defaults, 0, env).v.None? { FirstVisibleAgree(d.syms, 0, env, env'); }
  }

  lemma SelAgree(k: Config, user: Option<nat>, c: nat, env: Env, env': Env)
    requires Agree(env, env', ChSelOut(k, user, c, env).rd)
    ensures ChSelOut(k, user, c, env) == ChSelOut(k, user, c, env')
  {
    if GetTri(env, ChMode(c)) == 2 && !(user.Some? && AtomVis(Sym(user.value), env).v != 0) {
      DefaultSelectionAgree(k, c, env, env');
    }
  }

  /** Does the input of the slot's owner matter to the slot, and is it the same? */
  ghost predicate SameOwnInput(u: Input, u': Input, slot: Slot) {
    match slot.Owner()
    case SymItem(s) => u.Val(s) == u'.Val(s)
    case ChItem(c) => u.Mode(c) == u'.Mode(c) && u.Sel(c) == u'.Sel(c)
  }

  /** Short-circuiting makes the read set itself part of what is determined: nothing
      outside it can change the value or the read set. */
  lemma StepAgree(k: Config, u: Input, u': Input, slot: Slot, env: Env, env': Env)
    requires SameOwnInput(u, u', slot)
    requires Agree(env, env', Step(k, u, slot, env).rd)
    ensures Step(k, u, slot, env) == Step(k, u', slot, env')
  {
    match slot {
      case SymVis(s) => VisAgree(k, s, env, env');
      case SymTri(s) => TriAgree(k, u.Val(s), s, env, env');
      case SymStr(s) => StrAgree(k, u.Val(s), s, env, env');
      case SymAsg(s) => AsgAgree(k, s, env, env');
      case ChVis(c) => ChVisAgree(k, c, env, env');
      case ChMode(c) =>
      case ChSel(c) => SelAgree(k, u.Sel(c), c, env, env');
      case ChAsg(c) =>
    }
  }

  // What can be read at all

  function AtomSlots(a: Atom): set<Slot> {
    match a
    case Const(_) => {}
    case Sym(s) => {SymTri(s), SymStr(s)}
  }

  function ExprSlots(e: Expr): set<Slot> {
    match e
    case Leaf(a) => AtomSlots(a)
    case Mode(c) => {ChMode(c)}
    case And(l, r) => ExprSlots(l) + ExprSlots(r)
    case Or(l, r) => ExprSlots(l) + ExprSlots(r)
    case Not(x) => ExprSlots(x)
    case Cmp(_, a, b) => AtomSlots(a) + AtomSlots(b)
  }

  function ExprsSlots(es: seq<Expr>): set<Slot> {
    set e, r | e in es && r in ExprSlots(e) :: r
  }

  function ModulesSlots(k: Config): set<Slot> {
    if k.modules.Some? then {SymTri(k.modules.value)} else {}
  }

  /** Properties the type of a symbol can depend on. */
  function TypeSlots(k: Config, s: nat): set<Slot> {
    var d := k.Sym(s);
    (if d.ty.Tristate? then ModulesSlots(k) else {})
    + (if d.choice.Some? then {ChMode(d.choice.value)} else {})
  }

  function ChTypeSlots(k: Config, c: nat): set<Slot> {
    if k.Choice(c).ty.Tristate? then ModulesSlots(k) else {}
  }

  function DefaultExprs(ds: seq<Default>): seq<Expr> {
    DefaultConds(ds) + seq(|ds|, i requires 0 <= i < |ds| => ds[i].value)
  }

  function RangeSlots(rs: seq<Range>): set<Slot> {
    set i, r | 0 <= i < |rs| && r in AtomSlots(rs[i].low) + AtomSlots(rs[i].high) :: r
  }

  function ChDefaultConds(ds: seq<ChoiceDefault>): seq<Expr> {
    seq(|ds|, i requires 0 <= i < |ds| => ds[i].cond)
  }

  /** The symbols whose visibility the selection of a choice can depend on. */
  function Selectable(k: Config, c: nat): set<nat> {
    var d := k.Choice(c);
    (set s | s in d.syms)
    + (set i | 0 <= i < |d.defaults| && d.defaults[i].atom.Sym? :: d.defaults[i].atom.id)
  }

  /** An upper bound on the properties read for a slot, whatever the values are. */
  function StaticReads(k: Config, slot: Slot): set<Slot> {
    match slot
    case SymVis(s) => ExprsSlots(k.Sym(s).prompts) + TypeSlots(k, s)
    case SymTri(s) =>
      var d := k.Sym(s);
      if !d.ty.Logic() then {} else
      {SymVis(s)}
      + (if d.choice.Some? then {ChSel(d.choice.value)} else
         ExprsSlots(DefaultExprs(d.defaults) + [d.weakRevDep, d.directDep, d.revDep]) + TypeSlots(k, s))
    case SymStr(s) =>
      var d := k.Sym(s);
      if d.ty.Logic() then {SymTri(s)}
      else if d.ty.Unknown? then {}
      else {SymVis(s)} + ExprsSlots(DefaultExprs(d.defaults) + RangeConds(d.ranges)) + RangeSlots(d.ranges)
    case SymAsg(s) =>
      {SymVis(s)} + ExprsSlots([k.Sym(s).weakRevDep, k.Sym(s).revDep]) + TypeSlots(k, s)
    case ChVis(c) => ExprsSlots(k.Choice(c).prompts) + ChTypeSlots(k, c)
    case ChMode(c) => {ChVis(c)} + ChTypeSlots(k, c)
    case ChSel(c) =>
      {ChMode(c)} + ExprsSlots(ChDefaultConds(k.Choice(c).defaults)) + (set s | s in Selectable(k, c) :: SymVis(s))
    case ChAsg(c) => {ChVis(c)} + ChTypeSlots(k, c)
  }

  lemma {:induction false} ExprReads(k: Config, e: Expr, env: Env)
    ensures ExprOut(k, e, env).rd <= ExprSlots(e)
  {
    match e {
      case Leaf(a) =>
      case Mode(c) =>
      case Not(x) => ExprReads(k, x, env);
      case Cmp(rel, a, b) =>
      case And(l, r) => ExprReads(k, l, env); ExprReads(k, r, env);
      case Or(l, r) => ExprReads(k, l, env); ExprReads(k, r, env);
    }
  }

  lemma ExprReadsIn(k: Config, e: Expr, es: seq<Expr>, env: Env)
    requires e in es
    ensures ExprOut(k, e, env).rd <= ExprsSlots(es)
  {
    ExprReads(k, e, env);
  }

  lemma {:induction false} PromptsReads(k: Config, ps: seq<Expr>, n: nat, env: Env)
    requires n <= |ps|
    ensures PromptsOut(k, ps, n, env).rd <= ExprsSlots(ps)
  {
    if n == 0 {
    } else {
      PromptsReads(k, ps, n - 1, env);
      ExprReadsIn(k, ps[n - 1], ps, env);
    }
  }

  lemma {:induction false} FirstTrueReads(k: Config, conds: seq<Expr>, i: nat, env: Env)
    requires i <= |conds|
    ensures FirstTrue(k, conds, i, env).rd <= ExprsSlots(conds)
    decreases |conds| - i
  {
    if i == |conds| {
    } else {
      FirstTrueReads(k, conds, i + 1, env);
      ExprReadsIn(k, conds[i], conds, env);
    }
  }

  lemma {:induction false} FirstDefaultReads(k: Config, ds: seq<ChoiceDefault>, i: nat, env: Env)
    requires i <= |ds|
    ensures forall r :: r in FirstDefault(k, ds, i, env).rd ==>
              r in ExprsSlots(ChDefaultConds(ds))
              || (exists j :: 0 <= j < |ds| && ds[j].atom.Sym? && r == SymVis(ds[j].atom.id))
    decreases |ds| - i
  {
    if i == |ds| {
    } else {
      FirstDefaultReads(k, ds, i + 1, env);
      ExprReadsIn(k, ChDefaultConds(ds)[i], ChDefaultConds(ds), env);
    }
  }

  lemma {:induction false} FirstVisibleReads(syms: seq<nat>, i: nat, env: Env)
    requires i <= |syms|
    ensures forall r :: r in FirstVisible(syms, i, env).rd ==> r.SymVis? && r.s in syms
    decreases |syms| - i
  {
    if i == |syms| {
    } else {
      FirstVisibleReads(syms, i + 1, env);
    }
  }

  lemma ConcatSlots(a: seq<Expr>, b: seq<Expr>)
    ensures ExprsSlots(a) <= ExprsSlots(a + b)
    ensures ExprsSlots(b) <= ExprsSlots(a + b)
  {
  }

  lemma DefaultTriReads(k: Config, s: nat, env: Env)
    ensures DefaultTri(k, s, env).rd <= ExprsSlots(DefaultExprs(k.Sym(s).defaults))
  {
    var ds := k.Sym(s).defaults;
    FirstTrueReads(k, DefaultConds(ds), 0, env);
    ConcatSlots(DefaultConds(ds), seq(|ds|, i requires 0 <= i < |ds| => ds[i].value));
    var f := FirstTrue(k, DefaultConds(ds), 0, env);
    if f.v.Some? {
      assert DefaultExprs(ds)[|ds| + f.v.value.0] == ds[f.v.value.0].value;
      ExprReadsIn(k, ds[f.v.value.0].value, DefaultExprs(ds), env);
    }
  }

  lemma TriReads(k: Config, user: UserVal, s: nat, env: Env)
    ensures SymTriOut(k, user, s, env).rd <= StaticReads(k, SymTri(s))
  {
    hide ExprOut, ExprsSlots, DefaultTri, DefaultExprs;
    var d := k.Sym(s);
    if d.ty.Logic() && d.choice.None? {
      var es := DefaultExprs(d.defaults) + [d.weakRevDep, d.directDep, d.revDep];
      DefaultTriReads(k, s, env);
      ConcatSlots(DefaultExprs(d.defaults), [d.weakRevDep, d.directDep, d.revDep]);
      assert es[|es| - 3] == d.weakRevDep && es[|es| - 2] == d.directDep && es[|es| - 1] == d.revDep;
      ExprReadsIn(k, d.weakRevDep, es, env);
      ExprReadsIn(k, d.directDep, es, env);
      ExprReadsIn(k, d.revDep, es, env);
    }
  }

  lemma DefaultStrReads(k: Config, s: nat, env: Env)
    ensures DefaultStr(k, s, env).rd <= ExprsSlots(DefaultExprs(k.Sym(s).defaults))
  {
    var ds := k.Sym(s).defaults;
    FirstTrueReads(k, DefaultConds(ds), 0, env);
    ConcatSlots(DefaultConds(ds), seq(|ds|, i requires 0 <= i < |ds| => ds[i].value));
    var f := FirstTrue(k, DefaultConds(ds), 0, env);
    if f.v.Some? {
      var e := ds[f.v.value.0].value;
      assert DefaultExprs(ds)[|ds| + f.v.value.0] == e;
      assert AtomSlots(DefaultAtom(e)) <= ExprSlots(e);
    }
  }

  lemma RangeReads(k: Config, s: nat, env: Env)
    ensures ActiveRange(k, s, env).rd <= ExprsSlots(RangeConds(k.Sym(s).ranges)) + RangeSlots(k.Sym(s).ranges)
  {
    var rs := k.Sym(s).ranges;
    FirstTrueReads(k, RangeConds(rs), 0, env);
    var f := FirstTrue(k, RangeConds(rs), 0, env);
    if f.v.Some? {
      var i := f.v.value.0;
      assert forall r :: r in AtomSlots(rs[i].low) + AtomSlots(rs[i].high) ==> r in RangeSlots(rs);
    }
  }

  lemma StrReads(k: Config, user: UserVal, s: nat, env: Env)
    ensures SymStrOut(k, user, s, env).rd <= StaticReads(k, SymStr(s))
  {
    var d := k.Sym(s);
    if !d.ty.Logic() && !d.ty.Unknown? {
      DefaultStrReads(k, s, env);
      RangeReads(k, s, env);
      ConcatSlots(DefaultExprs(d.defaults), RangeConds(d.ranges));
    }
  }

  lemma AsgReads(k: Config, s: nat, env: Env)
    ensures SymAsgOut(k, s, env).rd <= StaticReads(k, SymAsg(s))
  {
    var es := [k.Sym(s).weakRevDep, k.Sym(s).revDep];
    ExprReadsIn(k, es[0], es, env);
    ExprReadsIn(k, es[1], es, env);
  }

  lemma SelReads(k: Config, user: Option<nat>, c: nat, env: Env)
    requires user.Some? ==> user.value in Selectable(k, c)
    ensures ChSelOut(k, user, c, env).rd <= StaticReads(k, ChSel(c))
  {
    var d := k.Choice(c);
    FirstDefaultReads(k, d.defaults, 0, env);
    FirstVisibleReads(d.syms, 0, env);
    forall r | r in ChSelOut(k, user, c, env).rd ensures r in StaticReads(k, ChSel(c)) {
      if r in FirstDefault(k, d.defaults, 0, env).rd && r !in ExprsSlots(ChDefaultConds(d.defaults)) {
        var j :| 0 <= j < |d.defaults| && d.defaults[j].atom.Sym? && r == SymVis(d.defaults[j].atom.id);
        assert d.defaults[j].atom.id in Selectable(k, c);
      }
    }
  }

  /** User selections are symbols of their choice, which Symbol.set_value() sees to. */
  ghost predicate SelsOk(k: Config, u: Input) {
    forall c: nat {:trigger u.Sel(c)} :: u.Sel(c).Some? ==> u.Sel(c).value in k.Choice(c).syms
  }

  lemma StepReads(k: Config, u: Input, slot: Slot, env: Env)
    requires SelsOk(k, u)
    ensures Step(k, u, slot, env).rd <= StaticReads(k, slot)
  {
    match slot {
      case SymVis(s) => PromptsReads(k, k.Sym(s).prompts, |k.Sym(s).prompts|, env);
      case SymTri(s) => TriReads(k, u.Val(s), s, env);
      case SymStr(s) => StrReads(k, u.Val(s), s, env);
      case SymAsg(s) => AsgReads(k, s, env);
      case ChVis(c) => PromptsReads(k, k.Choice(c).prompts, |k.Choice(c).prompts|, env);
      case ChMode(c) =>
      case ChSel(c) => SelReads(k, u.Sel(c), c, env);
      case ChAsg(c) =>
    }
  }

  // From-scratch evaluation

  /** A witness that evaluation terminates: whatever a property may read ranks lower. */
  type Rank = Slot -> nat

  ghost function RankOf(rk: Rank, slot: Slot): nat {
    rk(slot)
  }

  ghost predicate Ranked(k: Config, rk: Rank) {
    forall slot, r {:trigger r in StaticReads(k, slot)} :: r in StaticReads(k, slot) ==>
      RankOf(rk, r) < RankOf(rk, slot)
  }

  ghost function Eval(k: Config, u: Input, rk: Rank, slot: Slot): Val
    decreases rk(slot)
  {
    Step(k, u, slot, (r: Slot) => if rk(r) < rk(slot) then Eval(k, u, rk, r) else SelV(None)).v
  }

  ghost function Values(k: Config, u: Input, rk: Rank): Env {
    slot => Eval(k, u, rk, slot)
  }

  lemma GetValue(k: Config, u: Input, rk: Rank, slot: Slot)
    ensures GetTri(Values(k, u, rk), slot) == Eval(k, u, rk, slot).AsTri()
    ensures GetStr(Values(k, u, rk), slot) == Eval(k, u, rk, slot).AsStr()
    ensures GetSel(Values(k, u, rk), slot) == Eval(k, u, rk, slot).AsSel()
  {
  }

  /** Evaluation solves its equations: every property has the value that its
      definition gives in the environment of all properties. */
  lemma EvalStep(k: Config, u: Input, rk: Rank, slot: Slot)
    requires Ranked(k, rk) && SelsOk(k, u)
    ensures Eval(k, u, rk, slot) == Step(k, u, slot, Values(k, u, rk)).v
  {
    var below: Env := (r: Slot) => if rk(r) < rk(slot) then Eval(k, u, rk, r) else SelV(None);
    var all := Values(k, u, rk);
    StepReads(k, u, slot, all);
    assert Agree(all, below, Step(k, u, slot, all).rd);
    StepAgree(k, u, u, slot, all, below);
  }

  /** ... and nothing else solves them, so the ranks have no influence on the values. */
  lemma {:induction false} EvalUnique(k: Config, u: Input, rk: Rank, env: Env, slot: Slot)
    requires Ranked(k, rk) && SelsOk(k, u)
    requires forall r: Slot :: env(r) == Step(k, u, r, env).v
    ensures env(slot) == Eval(k, u, rk, slot)
    decreases rk(slot)
  {
    var all := Values(k, u, rk);
    StepReads(k, u, slot, env);
    forall r | r in Step(k, u, slot, env).rd ensures env(r) == all(r) {
      EvalUnique(k, u, rk, env, r);
    }
    StepAgree(k, u, u, slot, env, all);
    EvalStep(k, u, rk, slot);
  }
}
