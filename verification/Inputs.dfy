/** What assignments do to the user's input, independently of any cache. */
module Inputs {
  import opened Wrappers
  import opened Tristate
  import opened Numbers
  import opened Expressions
  import opened Evaluation
  import opened Semantics

  /** The argument of set_value(): a tristate number or a string. */
  datatype Value = Num(n: int) | Text(text: string)

  /** The user value that 'value' stands for on a symbol of type 'ty', or None if it is
      invalid for the type. */
  function Accepted(ty: Ty, value: Value): Option<UserVal> {
    match value
    case Num(n) =>
      if (ty.Bool? && (n == 0 || n == 2)) || (ty.Tristate? && 0 <= n <= 2)
      then Some(TriVal(n)) else None
    case Text(t) =>
      if ty.Logic() then
        if t in NMY && (ty.Bool? ==> t != "m") then Some(TriVal(StrToTri(t))) else None
      else if ty.String? || (ty.Int? && IsBaseN(t, 10)) || (ty.Hex? && IsBaseN(t, 16) && ParseInt(t, 16).value >= 0)
      then Some(StrVal(t)) else None
  }

  /** Python's 'value == self.user_value', where n, m and y have been converted. */
  predicate Same(ty: Ty, value: Value, v: UserVal) {
    match v
    case NoVal => false
    case TriVal(t) => value == Num(t) || (ty.Logic() && value == Text(TriToStr(t)))
    case StrVal(t) => value == Text(t)
  }

  /** Is 'v' something that set_value() can have stored on a symbol of type 'ty'? */
  predicate Storable(ty: Ty, v: UserVal) {
    match v
    case NoVal => true
    case TriVal(t) => Accepted(ty, Num(t)) == Some(v)
    case StrVal(t) => Accepted(ty, Text(t)) == Some(v)
  }

  lemma SameIsAccepted(ty: Ty, value: Value, v: UserVal)
    requires Storable(ty, v) && Same(ty, value, v)
    ensures Accepted(ty, value) == Some(v)
  {
  }

  /** The mode that 'value' stands for on a choice of type 'ty'. */
  function AcceptedMode(ty: Ty, value: Value): Option<Tri> {
    if !ty.Logic() then None else
    match Accepted(ty, value)
    case Some(TriVal(t)) => Some(t)
    case _ => None
  }

  ghost predicate InputOk(k: Config, u: Input) {
    && |u.vals| == |u.symSet| == |k.syms|
    && |u.modes| == |u.sels| == |u.chSet| == |k.choices|
    && SelsOk(k, u)
    && (forall s: nat {:trigger u.Val(s)} :: Storable(k.Sym(s).ty, u.Val(s)))
  }

  /** The input of a Kconfig instance on which nothing has been set. */
  function NoInput(k: Config): Input {
    Input(seq(|k.syms|, _ => NoVal), seq(|k.choices|, _ => None), seq(|k.choices|, _ => None),
          seq(|k.syms|, _ => false), seq(|k.choices|, _ => false))
  }

  /** Symbol.set_value(): setting a choice symbol to y also selects it. */
  function SetSym(k: Config, u: Input, s: nat, value: Value): Input {
    var v := Accepted(k.Sym(s).ty, value);
    if v.None? || !(s < |u.vals| && s < |u.symSet|) then u else
    var u1 := u.(vals := u.vals[s := v.value], symSet := u.symSet[s := true]);
    var c := k.Sym(s).choice;
    if c.Some? && v.value == TriVal(2) && c.value < |u.sels| && c.value < |u.chSet| then
      u1.(sels := u1.sels[c.value := Some(s)], chSet := u1.chSet[c.value := true])
    else u1
  }

  /** A number is taken as n, m or y by a symbol that can have that value by its type, and
      otherwise ignored; y also selects a choice symbol. */
  lemma NumberIsSet(k: Config, u: Input, s: nat, n: int)
    requires InputOk(k, u) && s < |k.syms|
    ensures var u', ty, c := SetSym(k, u, s, Num(n)), k.Sym(s).ty, k.Sym(s).choice;
            if (ty.Bool? && (n == 0 || n == 2)) || (ty.Tristate? && 0 <= n <= 2) then
              && u'.vals == u.vals[s := TriVal(n)] && u'.symSet == u.symSet[s := true] && u'.modes == u.modes
              && (if c.Some? && n == 2 && c.value < |k.choices|
                  then u'.sels == u.sels[c.value := Some(s)] && u'.chSet == u.chSet[c.value := true]
                  else u'.sels == u.sels && u'.chSet == u.chSet)
            else u' == u
  {
  }

  lemma SetSymOk(k: Config, u: Input, s: nat, value: Value)
    requires InputOk(k, u)
    requires k.Sym(s).choice.Some? ==> s in k.Choice(k.Sym(s).choice.value).syms
    ensures InputOk(k, SetSym(k, u, s, value))
  {
    var u' := SetSym(k, u, s, value);
    forall c: nat | u'.Sel(c).Some? ensures u'.Sel(c).value in k.Choice(c).syms {
      if u'.Sel(c) != u.Sel(c) { assert k.Sym(s).choice == Some(c); }
    }
    forall x: nat ensures Storable(k.Sym(x).ty, u'.Val(x)) {
      if x != s { assert u'.Val(x) == u.Val(x); }
    }
  }

  /** Symbol.unset_value() */
  function UnsetSym(u: Input, s: nat): Input {
    if s < |u.vals| then u.(vals := u.vals[s := NoVal]) else u
  }

  /** Choice.set_value() */
  function SetMode(k: Config, u: Input, c: nat, value: Value): Input {
    var t := AcceptedMode(k.Choice(c).ty, value);
    if t.None? || !(c < |u.modes| && c < |u.chSet|) then u else
    u.(modes := u.modes[c := t], chSet := u.chSet[c := true])
  }

  lemma SetModeOk(k: Config, u: Input, c: nat, value: Value)
    requires InputOk(k, u)
    ensures InputOk(k, SetMode(k, u, c, value))
  {
    var u' := SetMode(k, u, c, value);
    assert forall x: nat :: u'.Val(x) == u.Val(x) && u'.Sel(x) == u.Sel(x);
  }

  /** Choice.unset_value() */
  function UnsetMode(u: Input, c: nat): Input {
    if c < |u.modes| && c < |u.sels| then u.(modes := u.modes[c := None], sels := u.sels[c := None]) else u
  }

  lemma UnsetOk(k: Config, u: Input, i: nat)
    requires InputOk(k, u)
    ensures InputOk(k, UnsetSym(u, i)) && InputOk(k, UnsetMode(u, i))
  {
    var u1, u2 := UnsetSym(u, i), UnsetMode(u, i);
    forall x: nat ensures Storable(k.Sym(x).ty, u1.Val(x)) {
      if x != i { assert u1.Val(x) == u.Val(x); }
    }
    assert forall x: nat :: u1.Sel(x) == u.Sel(x) && u2.Val(x) == u.Val(x);
    forall c: nat | u2.Sel(c).Some? ensures u2.Sel(c).value in k.Choice(c).syms {
      assert u2.Sel(c) == u.Sel(c);
    }
  }

  // Runs

  /** What a client can do to a Kconfig instance: assign, or read a property. */
  datatype Op =
    | SetSymOp(s: nat, value: Value)
    | UnsetSymOp(s: nat)
    | SetModeOp(c: nat, value: Value)
    | UnsetModeOp(c: nat)
    | ReadOp(slot: Slot)

  predicate OpOk(k: Config, op: Op) {
    match op
    case SetSymOp(s, _) => s < |k.syms|
    case UnsetSymOp(s) => s < |k.syms|
    case SetModeOp(c, _) => c < |k.choices|
    case UnsetModeOp(c) => c < |k.choices|
    case ReadOp(slot) =>
      match slot.Owner()
      case SymItem(s) => s < |k.syms|
      case ChItem(c) => c < |k.choices|
  }

  function Apply(k: Config, u: Input, op: Op): Input {
    match op
    case SetSymOp(s, value) => SetSym(k, u, s, value)
    case UnsetSymOp(s) => UnsetSym(u, s)
    case SetModeOp(c, value) => SetMode(k, u, c, value)
    case UnsetModeOp(c) => UnsetMode(u, c)
    case ReadOp(_) => u
  }

  function ApplyAll(k: Config, u: Input, ops: seq<Op>): Input
    decreases |ops|
  {
    if ops == [] then u else ApplyAll(k, Apply(k, u, ops[0]), ops[1..])
  }

  datatype Reading = TriR(t: Tri) | StrR(text: string) | AsgR(tris: seq<Tri>) | SelR(sel: Option<nat>)

  function Observed(v: Val): Reading {
    match v
    case TriV(t, _) => TriR(t)
    case StrV(text, _) => StrR(text)
    case AsgV(tris) => AsgR(tris)
    case SelV(sel) => SelR(sel)
  }

  /** The readings of a run in which every property is evaluated from scratch. */
  ghost function Readings(k: Config, u: Input, rk: Rank, ops: seq<Op>): seq<Reading>
    decreases |ops|
  {
    if ops == [] then [] else
    (if ops[0].ReadOp? then [Observed(Eval(k, u, rk, ops[0].slot))] else [])
    + Readings(k, Apply(k, u, ops[0]), rk, ops[1..])
  }
}
