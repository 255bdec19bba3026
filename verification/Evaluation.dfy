/** What the value properties of symbols and choices compute. Every property is a
    function of the user's input and of an environment that supplies the properties
    it reads; next to its value, each function gives the set of properties that were
    really read, which is smaller than what its expressions mention because
    evaluation short-circuits. */
module Evaluation {
  import opened Wrappers
  import opened Tristate
  import opened Numbers
  import opened Expressions

  /** The properties of items. ChMode is Choice.tri_value, which is never cached. */
  datatype Slot =
    | SymVis(s: nat) | SymTri(s: nat) | SymStr(s: nat) | SymAsg(s: nat)
    | ChVis(c: nat) | ChMode(c: nat) | ChSel(c: nat) | ChAsg(c: nat)
  {
    function Owner(): Item {
      match this
      case SymVis(s) => SymItem(s)
      case SymTri(s) => SymItem(s)
      case SymStr(s) => SymItem(s)
      case SymAsg(s) => SymItem(s)
      case ChVis(c) => ChItem(c)
      case ChMode(c) => ChItem(c)
      case ChSel(c) => ChItem(c)
      case ChAsg(c) => ChItem(c)
    }
  }

  /** The value of a property. 'write' is Symbol._write_to_conf, which is computed
      together with the value that makes it to the .config file. */
  datatype Val =
    | TriV(tri: Tri, write: bool)
    | StrV(str: string, write: bool)
    | AsgV(tris: seq<Tri>)
    | SelV(sel: Option<nat>)
  {
    function AsTri(): Tri { if TriV? then tri else 0 }
    function AsStr(): string { if StrV? then str else "" }
    function AsSel(): Option<nat> { if SelV? then sel else None }
    function AsAsg(): seq<Tri> { if AsgV? then tris else [] }
    predicate Writes() { (TriV? || StrV?) && write }
  }

  type Env = Slot -> Val

  function GetTri(env: Env, slot: Slot): Tri { env(slot).AsTri() }
  function GetStr(env: Env, slot: Slot): string { env(slot).AsStr() }
  function GetSel(env: Env, slot: Slot): Option<nat> { env(slot).AsSel() }

  /** A result together with the properties read to get it. */
  datatype Out<T> = Out(v: T, rd: set<Slot>)

  datatype UserVal = NoVal | TriVal(t: Tri) | StrVal(text: string)

  /** Everything a user can set, and the _was_set flags of _load_config(). */
  datatype Input = Input(
    vals: seq<UserVal>,           // Symbol.user_value
    modes: seq<Option<Tri>>,      // Choice.user_value
    sels: seq<Option<nat>>,       // Choice.user_selection
    symSet: seq<bool>,
    chSet: seq<bool>)
  {
    function Val(s: nat): UserVal { if s < |vals| then vals[s] else NoVal }
    function Mode(c: nat): Option<Tri> { if c < |modes| then modes[c] else None }
    function Sel(c: nat): Option<nat> { if c < |sels| then sels[c] else None }
  }

  // Expressions (expr_value)

  function AtomTri(a: Atom, env: Env): Out<Tri> {
    match a
    case Const(name) => Out(if name in NMY then StrToTri(name) else 0, {})
    case Sym(s) => Out(GetTri(env, SymTri(s)), {SymTri(s)})
  }

  function AtomStr(a: Atom, env: Env): Out<string> {
    match a
    case Const(name) => Out(name, {})
    case Sym(s) => Out(GetStr(env, SymStr(s)), {SymStr(s)})
  }

  /** _sym_to_num(); None stands for ValueError. */
  function AtomNum(k: Config, a: Atom, env: Env): Out<Option<int>> {
    var ty := k.TypeOf(a);
    if ty.Logic() then
      var t := AtomTri(a, env); Out(Some(t.v), t.rd)
    else
      var t := AtomStr(a, env); Out(ParseInt(t.v, ty.Base()), t.rd)
  }

  function StrCmpAtoms(a: Atom, b: Atom, env: Env): Out<int> {
    var x := AtomStr(a, env);
    var y := AtomStr(b, env);
    Out(StrCmp(x.v, y.v), x.rd + y.rd)
  }

  function CompareAtoms(k: Config, a: Atom, b: Atom, env: Env): Out<int> {
    if k.TypeOf(a).String? && k.TypeOf(b).String? then StrCmpAtoms(a, b, env)
    else
      var x := AtomNum(k, a, env);
      if x.v.None? then
        var c := StrCmpAtoms(a, b, env); Out(c.v, x.rd + c.rd)
      else
        var y := AtomNum(k, b, env);
        if y.v.None? then
          var c := StrCmpAtoms(a, b, env); Out(c.v, x.rd + y.rd + c.rd)
        else Out(x.v.value - y.v.value, x.rd + y.rd)
  }

  predicate RelHolds(rel: Rel, comp: int) {
    match rel
    case Equal => comp == 0
    case Unequal => comp != 0
    case Less => comp < 0
    case LessEqual => comp <= 0
    case Greater => comp > 0
    case GreaterEqual => comp >= 0
  }

  function ExprOut(k: Config, e: Expr, env: Env): Out<Tri> {
    match e
    case Leaf(a) => AtomTri(a, env)
    case Mode(c) => Out(GetTri(env, ChMode(c)), {ChMode(c)})
    case And(l, r) =>
      var x := ExprOut(k, l, env);
      if x.v == 0 then x else
      var y := ExprOut(k, r, env); Out(Min(x.v, y.v), x.rd + y.rd)
    case Or(l, r) =>
      var x := ExprOut(k, l, env);
      if x.v == 2 then x else
      var y := ExprOut(k, r, env); Out(Max(x.v, y.v), x.rd + y.rd)
    case Not(x) =>
      var o := ExprOut(k, x, env); Out(2 - o.v, o.rd)
    case Cmp(rel, a, b) =>
      var c := CompareAtoms(k, a, b, env);
      Out(if RelHolds(rel, c.v) then 2 else 0, c.rd)
  }

  // Lists of properties

  /** The maximum over the first 'n' prompt conditions. */
  function PromptsOut(k: Config, ps: seq<Expr>, n: nat, env: Env): Out<Tri>
    requires n <= |ps|
  {
    if n == 0 then Out(0, {}) else
    var x := PromptsOut(k, ps, n - 1, env);
    var y := ExprOut(k, ps[n - 1], env);
    Out(Max(x.v, y.v), x.rd + y.rd)
  }

  /** The first condition from position 'i' on that is not n, and its value. */
  function FirstTrue(k: Config, conds: seq<Expr>, i: nat, env: Env): Out<Option<(nat, Tri)>>
    requires i <= |conds|
    ensures var r := FirstTrue(k, conds, i, env).v;
            r.Some? ==> i <= r.value.0 < |conds| && r.value.1 != 0
    decreases |conds| - i
  {
    if i == |conds| then Out(None, {}) else
    var x := ExprOut(k, conds[i], env);
    if x.v != 0 then Out(Some((i, x.v)), x.rd) else
    var y := FirstTrue(k, conds, i + 1, env); Out(y.v, x.rd + y.rd)
  }

  function DefaultConds(ds: seq<Default>): seq<Expr> {
    seq(|ds|, i requires 0 <= i < |ds| => ds[i].cond)
  }

  function RangeConds(rs: seq<Range>): seq<Expr> {
    seq(|rs|, i requires 0 <= i < |rs| => rs[i].cond)
  }

  // Types and visibility

  function ModulesTri(k: Config, env: Env): Out<Tri> {
    match k.modules
    case None => Out(0, {})
    case Some(m) => AtomTri(Sym(m), env)
  }

  /** Symbol.type */
  function SymType(k: Config, s: nat, env: Env): Out<Ty> {
    var d := k.Sym(s);
    if !d.ty.Tristate? then Out(d.ty, {})
    else if d.choice.Some? then
      var mode := GetTri(env, ChMode(d.choice.value));
      if mode == 2 then Out(Bool, {ChMode(d.choice.value)}) else
      var mods := ModulesTri(k, env);
      Out(if mods.v == 0 then Bool else Tristate, {ChMode(d.choice.value)} + mods.rd)
    else
      var mods := ModulesTri(k, env);
      Out(if mods.v == 0 then Bool else Tristate, mods.rd)
  }

  /** Choice.type */
  function ChType(k: Config, c: nat, env: Env): Out<Ty> {
    var d := k.Choice(c);
    if !d.ty.Tristate? then Out(d.ty, {}) else
    var mods := ModulesTri(k, env);
    Out(if mods.v == 0 then Bool else d.ty, mods.rd)
  }

  /** The promotion of m to y at the end of _visibility(). */
  function PromotedVis(vis: Tri, ty: Out<Ty>): Out<Tri> {
    if vis == 1 then Out(if ty.v.Tristate? then 1 else 2, ty.rd) else Out(vis, {})
  }

  /** Does the mode of the choice hide a choice symbol? The two special cases of
      _visibility(), for a symbol whose prompts evaluate to 'vis'. */
  function HiddenByMode(k: Config, s: nat, vis: Tri, env: Env): Out<bool> {
    var d := k.Sym(s);
    if d.choice.None? then Out(false, {}) else
    var c := d.choice.value;
    if k.Choice(c).ty.Tristate? && !d.ty.Tristate? then
      Out(GetTri(env, ChMode(c)) != 2, {ChMode(c)})
    else if d.ty.Tristate? && vis == 1 then
      Out(GetTri(env, ChMode(c)) == 2, {ChMode(c)})
    else Out(false, {})
  }

  function SymVisOut(k: Config, s: nat, env: Env): Out<Tri> {
    var d := k.Sym(s);
    var p := PromptsOut(k, d.prompts, |d.prompts|, env);
    var h := HiddenByMode(k, s, p.v, env);
    if h.v then Out(0, p.rd + h.rd) else
    var r := PromotedVis(p.v, SymType(k, s, env));
    Out(r.v, p.rd + h.rd + r.rd)
  }

  function ChVisOut(k: Config, c: nat, env: Env): Out<Tri> {
    var d := k.Choice(c);
    var p := PromptsOut(k, d.prompts, |d.prompts|, env);
    var r := PromotedVis(p.v, ChType(k, c, env));
    Out(r.v, p.rd + r.rd)
  }

  /** Choice.tri_value */
  function ChModeOut(k: Config, user: Option<Tri>, c: nat, env: Env): Out<Tri> {
    var low: Tri := if k.Choice(c).optional then 0 else 1;
    var wanted := if user.Some? then Max(low, user.value) else low;
    var val := Min(wanted, GetTri(env, ChVis(c)));
    if val == 1 then
      var ty := ChType(k, c, env);
      Out(if ty.v.Bool? then 2 else val, {ChVis(c)} + ty.rd)
    else Out(val, {ChVis(c)})
  }

  // Logic values

  /** The value from 'default' properties. */
  function DefaultTri(k: Config, s: nat, env: Env): Out<Tri> {
    var ds := k.Sym(s).defaults;
    var f := FirstTrue(k, DefaultConds(ds), 0, env);
    if f.v.None? then Out(0, f.rd) else
    var x := ExprOut(k, ds[f.v.value.0].value, env);
    Out(Min(x.v, f.v.value.1), f.rd + x.rd)
  }

  /** The value without a user value, from defaults and implies, before selects.
      The flag says whether it is written out on that account. */
  function NoUserTri(k: Config, s: nat, env: Env): Out<(Tri, bool)> {
    var d := k.Sym(s);
    var x := DefaultTri(k, s, env);
    var w := ExprOut(k, d.weakRevDep, env);
    if w.v == 0 then Out((x.v, x.v != 0), x.rd + w.rd) else
    var dep := ExprOut(k, d.directDep, env);
    Out(if dep.v == 0 then (x.v, x.v != 0) else (Max(w.v, x.v), true), x.rd + w.rd + dep.rd)
  }

  /** Promotion of m to y, for bool symbols and symbols implied to y. */
  function PromotedTri(k: Config, s: nat, val: Tri, env: Env): Out<Tri> {
    if val != 1 then Out(val, {}) else
    var ty := SymType(k, s, env);
    if ty.v.Bool? then Out(2, ty.rd) else
    var w := ExprOut(k, k.Sym(s).weakRevDep, env);
    Out(if w.v == 2 then 2 else 1, ty.rd + w.rd)
  }

  /** The value before selects: from the user if possible, else from defaults. */
  function BaseTri(k: Config, user: UserVal, s: nat, vis: Tri, env: Env): Out<(Tri, bool)> {
    if vis != 0 && user.TriVal? then Out((Min(user.t, vis), true), {}) else
    var x := NoUserTri(k, s, env); Out((x.v.0, vis != 0 || x.v.1), x.rd)
  }

  /** Raises a value to that of the selecting symbols. */
  function Selected(base: (Tri, bool), rev: Tri): (Tri, bool) {
    if rev == 0 then base else (Max(rev, base.0), true)
  }

  /** tri_value of a symbol outside choices. */
  function PlainTriOut(k: Config, user: UserVal, s: nat, vis: Tri, env: Env): Out<(Tri, bool)> {
    var x := BaseTri(k, user, s, vis, env);
    var rev := ExprOut(k, k.Sym(s).revDep, env);
    var y := Selected(x.v, rev.v);
    var p := PromotedTri(k, s, y.0, env);
    Out((p.v, y.1), x.rd + rev.rd + p.rd)
  }

  /** tri_value of a choice symbol. */
  function MemberTriOut(k: Config, user: UserVal, s: nat, c: nat, vis: Tri, env: Env): Out<(Tri, bool)> {
    if vis == 2 then
      Out((if GetSel(env, ChSel(c)) == Some(s) then 2 else 0, true), {ChSel(c)})
    else
      Out((if vis != 0 && user.TriVal? && user.t != 0 then 1 else 0, vis != 0), {})
  }

  /** Symbol.tri_value */
  function SymTriOut(k: Config, user: UserVal, s: nat, env: Env): Out<(Tri, bool)> {
    var d := k.Sym(s);
    if !d.ty.Logic() then Out((0, false), {}) else
    var vis := GetTri(env, SymVis(s));
    var x := if d.choice.None? then PlainTriOut(k, user, s, vis, env)
             else MemberTriOut(k, user, s, d.choice.value, vis, env);
    Out(x.v, {SymVis(s)} + x.rd)
  }

  // String values

  function DefaultAtom(e: Expr): Atom {
    if e.Leaf? then e.atom else Const("")
  }

  /** The string of the first active default, if there is one. */
  function DefaultStr(k: Config, s: nat, env: Env): Out<Option<string>> {
    var ds := k.Sym(s).defaults;
    var f := FirstTrue(k, DefaultConds(ds), 0, env);
    if f.v.None? then Out(None, f.rd) else
    var x := AtomStr(DefaultAtom(ds[f.v.value.0].value), env);
    Out(Some(x.v), f.rd + x.rd)
  }

  /** The first active range, as numbers. */
  function ActiveRange(k: Config, s: nat, env: Env): Out<Option<(int, int)>> {
    var d := k.Sym(s);
    var f := FirstTrue(k, RangeConds(d.ranges), 0, env);
    if f.v.None? then Out(None, f.rd) else
    var r := d.ranges[f.v.value.0];
    var lo := AtomStr(r.low, env);
    var hi := AtomStr(r.high, env);
    Out(Some((NumOrZero(lo.v, d.ty.Base()), NumOrZero(hi.v, d.ty.Base()))), f.rd + lo.rd + hi.rd)
  }

  predicate InRange(n: int, range: Option<(int, int)>) {
    range.None? || range.value.0 <= n <= range.value.1
  }

  /** Clamps a default value, which is rewritten only if it is out of range. */
  function Clamped(val: string, base: nat, range: Option<(int, int)>): string {
    if (base != 10 && base != 16) || range.None? then val else
    var n := NumOrZero(val, base);
    if n < range.value.0 then IntText(range.value.0, base)
    else if n > range.value.1 then IntText(range.value.1, base)
    else val
  }

  /** str_value of an int or hex symbol. */
  function NumStrOut(k: Config, user: UserVal, s: nat, vis: Tri, env: Env): Out<(string, bool)> {
    var base := k.Sym(s).ty.Base();
    var range := ActiveRange(k, s, env);
    if vis != 0 && user.StrVal? && user.text != "" && InRange(NumOrZero(user.text, base), range.v) then
      Out((user.text, true), range.rd)
    else
      var def := DefaultStr(k, s, env);
      var val := if def.v.Some? then def.v.value else "";
      Out((Clamped(val, base, range.v), vis != 0 || def.v.Some?), range.rd + def.rd)
  }

  /** str_value of a string symbol. */
  function TextStrOut(k: Config, user: UserVal, s: nat, vis: Tri, env: Env): Out<(string, bool)> {
    if vis != 0 && user.StrVal? then Out((user.text, true), {}) else
    var def := DefaultStr(k, s, env);
    Out((if def.v.Some? then def.v.value else "", vis != 0 || def.v.Some?), def.rd)
  }

  /** Symbol.str_value */
  function SymStrOut(k: Config, user: UserVal, s: nat, env: Env): Out<(string, bool)> {
    var d := k.Sym(s);
    if d.ty.Logic() then Out((TriToStr(GetTri(env, SymTri(s))), false), {SymTri(s)})
    else if d.ty.Unknown? then Out((d.name, false), {})
    else
      var vis := GetTri(env, SymVis(s));
      var x := if d.ty.String? then TextStrOut(k, user, s, vis, env)
               else NumStrOut(k, user, s, vis, env);
      Out((x.v.0, x.v.1 && !d.hidden), {SymVis(s)} + x.rd)
  }

  // Assignable values and selections

  /** 'self.type is BOOL or expr_value(self.weak_rev_dep) == 2' */
  function NoMiddle(k: Config, s: nat, env: Env): Out<bool> {
    var ty := SymType(k, s, env);
    if ty.v.Bool? then Out(true, ty.rd) else
    var w := ExprOut(k, k.Sym(s).weakRevDep, env);
    Out(w.v == 2, ty.rd + w.rd)
  }

  /** Symbol.assignable */
  function SymAsgOut(k: Config, s: nat, env: Env): Out<seq<Tri>> {
    var d := k.Sym(s);
    if !d.ty.Logic() then Out([], {}) else
    var vis := GetTri(env, SymVis(s));
    if vis == 0 then Out([], {SymVis(s)}) else
    var rev := ExprOut(k, d.revDep, env);
    if vis == 2 then
      if d.choice.Some? then Out([2], {SymVis(s)} + rev.rd)
      else if rev.v == 2 then Out([2], {SymVis(s)} + rev.rd)
      else
        var b := NoMiddle(k, s, env);
        Out(if rev.v == 0 then (if b.v then [0, 2] else [0, 1, 2])
            else (if b.v then [2] else [1, 2]),
            {SymVis(s)} + rev.rd + b.rd)
    else if rev.v == 0 then
      var w := ExprOut(k, d.weakRevDep, env);
      Out(if w.v != 2 then [0, 1] else [0, 2], {SymVis(s)} + rev.rd + w.rd)
    else Out(if rev.v == 2 then [2] else [1], {SymVis(s)} + rev.rd)
  }

  /** Choice.assignable */
  function ChAsgOut(k: Config, c: nat, env: Env): Out<seq<Tri>> {
    var d := k.Choice(c);
    var vis := GetTri(env, ChVis(c));
    if vis == 0 then Out([], {ChVis(c)})
    else if vis == 2 then
      var ty := ChType(k, c, env);
      Out(if !d.optional then (if ty.v.Bool? then [2] else [1, 2])
          else (if ty.v.Bool? then [0, 2] else [0, 1, 2]), {ChVis(c)} + ty.rd)
    else Out(if d.optional then [0, 1] else [1], {ChVis(c)})
  }

  /** The visibility of a choice default; constant and undefined symbols have no
      prompts and are never visible. */
  function AtomVis(a: Atom, env: Env): Out<Tri> {
    match a
    case Const(_) => Out(0, {})
    case Sym(s) => Out(GetTri(env, SymVis(s)), {SymVis(s)})
  }

  /** The first default from 'i' on that is active and visible. */
  function FirstDefault(k: Config, ds: seq<ChoiceDefault>, i: nat, env: Env): Out<Option<nat>>
    requires i <= |ds|
    decreases |ds| - i
  {
    if i == |ds| then Out(None, {}) else
    var x := ExprOut(k, ds[i].cond, env);
    if x.v == 0 then
      var r := FirstDefault(k, ds, i + 1, env); Out(r.v, x.rd + r.rd)
    else
      var y := AtomVis(ds[i].atom, env);
      if y.v != 0 && ds[i].atom.Sym? then Out(Some(ds[i].atom.id), x.rd + y.rd) else
      var r := FirstDefault(k, ds, i + 1, env); Out(r.v, x.rd + y.rd + r.rd)
  }

  /** The first visible symbol from 'i' on. */
  function FirstVisible(syms: seq<nat>, i: nat, env: Env): Out<Option<nat>>
    requires i <= |syms|
    decreases |syms| - i
  {
    if i == |syms| then Out(None, {}) else
    var x := AtomVis(Sym(syms[i]), env);
    if x.v != 0 then Out(Some(syms[i]), x.rd) else
    var r := FirstVisible(syms, i + 1, env); Out(r.v, x.rd + r.rd)
  }

  /** _selection_from_defaults() */
  function DefaultSelection(k: Config, c: nat, env: Env): Out<Option<nat>> {
    var d := k.Choice(c);
    var x := FirstDefault(k, d.defaults, 0, env);
    if x.v.Some? then x else
    var y := FirstVisible(d.syms, 0, env); Out(y.v, x.rd + y.rd)
  }

  /** Choice.selection */
  function ChSelOut(k: Config, user: Option<nat>, c: nat, env: Env): Out<Option<nat>> {
    if GetTri(env, ChMode(c)) != 2 then Out(None, {ChMode(c)}) else
    var v := if user.Some? then AtomVis(Sym(user.value), env) else Out(0, {});
    if v.v != 0 then Out(user, {ChMode(c)} + v.rd) else
    var x := DefaultSelection(k, c, env);
    Out(x.v, {ChMode(c)} + v.rd + x.rd)
  }

  /** _str_default(): the value that write_min_config() takes for the default. */
  function StrDefault(k: Config, s: nat, env: Env): string {
    var d := k.Sym(s);
    if d.ty.Logic() then
      if d.choice.Some? then "n" else
      var val := Max(ExprOut(k, d.revDep, env).v, Max(ExprOut(k, d.weakRevDep, env).v, DefaultTri(k, s, env).v));
      TriToStr(if val == 1 && SymType(k, s, env).v.Bool? then 2 else val)
    else if d.ty.Unknown? then ""
    else
      var def := DefaultStr(k, s, env).v; if def.Some? then def.value else ""
  }

  /** One property, from the input and the properties it reads. */
  function Step(k: Config, u: Input, slot: Slot, env: Env): Out<Val> {
    match slot
    case SymVis(s) => var o := SymVisOut(k, s, env); Out(TriV(o.v, false), o.rd)
    case SymTri(s) => var o := SymTriOut(k, u.Val(s), s, env); Out(TriV(o.v.0, o.v.1), o.rd)
    case SymStr(s) => var o := SymStrOut(k, u.Val(s), s, env); Out(StrV(o.v.0, o.v.1), o.rd)
    case SymAsg(s) => var o := SymAsgOut(k, s, env); Out(AsgV(o.v), o.rd)
    case ChVis(c) => var o := ChVisOut(k, c, env); Out(TriV(o.v, false), o.rd)
    case ChMode(c) => var o := ChModeOut(k, u.Mode(c), c, env); Out(TriV(o.v, false), o.rd)
    case ChSel(c) => var o := ChSelOut(k, u.Sel(c), c, env); Out(SelV(o.v), o.rd)
    case ChAsg(c) => var o := ChAsgOut(k, c, env); Out(AsgV(o.v), o.rd)
  }
}
