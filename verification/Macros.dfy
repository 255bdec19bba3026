/** Macro expansion in the preprocessor, as functions of the text and of how often each
    variable is being expanded already. */
module Macros {
  import opened Wrappers
  import opened Numbers

  datatype Variable = Variable(name: string, value: string)

  /** What a preprocessor function does: it is not defined, raises an error, or gives a value. */
  datatype Called = Undefined | Failed | Value(text: string)

  /** The preprocessor variables, in any order; the built-in and user-defined functions with
      the arguments they get; and the process environment. */
  datatype Names = Names(
    variables: seq<Variable>,
    call: (string, seq<string>) -> Called,
    environ: string -> Option<string>)

  /** Variable._n_expansions, for each variable. */
  type Counts = seq<nat>

  function FindVariable(vs: seq<Variable>, name: string): (r: Option<nat>)
    ensures r.Some? ==> r.value < |vs| && vs[r.value].name == name
  {
    if vs == [] then None
    else if vs[|vs| - 1].name == name then Some(|vs| - 1)
    else FindVariable(vs[..|vs| - 1], name)
  }

  /** How many more expansions can be started. */
  function Budget(n: Counts): nat {
    if n == [] then 0 else Budget(n[..|n| - 1]) + if n[|n| - 1] <= 100 then 101 - n[|n| - 1] else 0
  }

  lemma {:induction false} BudgetShrinks(n: Counts, v: nat)
    requires v < |n| && n[v] <= 100
    ensures Budget(n[v := n[v] + 1]) < Budget(n)
  {
    var last := |n| - 1;
    if v == last {
      assert n[v := n[v] + 1][..last] == n[..last];
    } else {
      assert n[v := n[v] + 1][..last] == n[..last][v := n[v] + 1];
      BudgetShrinks(n[..last], v);
    }
  }

  // Searching

  predicate MacroAt(s: string, i: nat) {
    i + 1 < |s| && s[i] == '$' && s[i + 1] == '('
  }

  predicate SpecialAt(s: string, i: nat) {
    i < |s| && (s[i] == '(' || s[i] == ')' || s[i] == ',' || MacroAt(s, i))
  }

  /** The first "$(" from position 'i' on, or the length of 's'. */
  function FindMacro(s: string, i: nat): (j: nat)
    requires i <= |s|
    ensures i <= j <= |s| && (j < |s| ==> MacroAt(s, j)) && forall x :: i <= x < j ==> !MacroAt(s, x)
    decreases |s| - i
  {
    if i == |s| || MacroAt(s, i) then i else FindMacro(s, i + 1)
  }

  /** The first of "(", ")", "," and "$(" from position 'i' on, or the length of 's'. */
  function FindSpecial(s: string, i: nat): (j: nat)
    requires i <= |s|
    ensures i <= j <= |s| && (j < |s| ==> SpecialAt(s, j)) && forall x :: i <= x < j ==> !SpecialAt(s, x)
    decreases |s| - i
  {
    if i == |s| || SpecialAt(s, i) then i else FindSpecial(s, i + 1)
  }

  // Expansion

  /** The new text, and the position after what was expanded. */
  datatype Expanded = Expanded(s: string, i: nat)

  /** The text before 'start' and the text after the macro are untouched, and the rest of the
      text has become shorter. */
  ghost predicate Framed(s: string, start: nat, i: nat, r: Expanded) {
    && start <= i <= |s| && start <= r.i <= |r.s| && |r.s| - r.i < |s| - i
    && r.s[..start] == s[..start] && r.s[r.i..] == s[|s| - (|r.s| - r.i)..]
  }

  /** The rest of a macro after a macro in its arguments. */
  lemma FramedAgain(s: string, start: nat, i: nat, j: nat, e: Expanded, r: Expanded)
    requires start <= i <= j && Framed(s, j, j + 2, e) && Framed(e.s, start, e.i, r)
    ensures Framed(s, start, i, r)
  {
    assert e.s[..start] == e.s[..j][..start] == s[..j][..start];
    var left := |r.s| - r.i;
    assert r.s[r.i..] == e.s[|e.s| - left..] == e.s[e.i..][|e.s| - left - e.i..];
    assert s[|s| - left..] == s[|s| - (|e.s| - e.i)..][|e.s| - left - e.i..];
  }

  /** _expand_macro() at the "$(" at position 'i'. None stands for KconfigError. */
  function ExpandMacro(m: Names, n: Counts, s: string, i: nat, args: seq<string>): (r: Option<Expanded>)
    requires |n| == |m.variables| && MacroAt(s, i)
    ensures r.Some? ==> Framed(s, i, i + 2, r.value)
    decreases Budget(n), |s| - i, 1
  {
    Scan(m, n, s, i + 2, args, i, i + 2, [], 0)
  }

  /** The loop of _expand_macro(), for the macro at 'start'. */
  function Scan(m: Names, n: Counts, s: string, i: nat, args: seq<string>,
                start: nat, argStart: nat, newArgs: seq<string>, nesting: nat): (r: Option<Expanded>)
    requires |n| == |m.variables| && start < argStart <= i <= |s|
    ensures r.Some? ==> Framed(s, start, i, r.value)
    decreases Budget(n), |s| - i, 2
  {
    var j := FindSpecial(s, i);
    if j == |s| then None
    else if MacroAt(s, j) then
      var e := ExpandMacro(m, n, s, j, args);
      if e.None? then None else
      var r := Scan(m, n, e.value.s, e.value.i, args, start, argStart, newArgs, nesting);
      assert r.Some? ==> Framed(s, start, i, r.value) by { if r.Some? { FramedAgain(s, start, i, j, e.value, r.value); } }
      r
    else if s[j] == '(' then Scan(m, n, s, j + 1, args, start, argStart, newArgs, nesting + 1)
    else if s[j] == ')' then
      if nesting > 0 then Scan(m, n, s, j + 1, args, start, argStart, newArgs, nesting - 1) else
      var v := MacroVal(m, n, newArgs + [s[argStart..j]], args);
      if v.None? then None else Some(Expanded(s[..start] + v.value + s[j + 1..], start + |v.value|))
    else
      if nesting > 0 then Scan(m, n, s, j + 1, args, start, argStart, newArgs, nesting)
      else Scan(m, n, s, j + 1, args, start, j + 1, newArgs + [s[argStart..j]], 0)
  }

  /** args[int(name)]; None stands for ValueError or IndexError. */
  function Argument(args: seq<string>, name: string): Option<string> {
    var k := ParseInt(name, 10);
    if k.None? then None
    else if 0 <= k.value < |args| then Some(args[k.value])
    else if -|args| <= k.value < 0 then Some(args[|args| + k.value])
    else None
  }

  /** The value of a macro with the given name and arguments. */
  function MacroVal(m: Names, n: Counts, newArgs: seq<string>, args: seq<string>): Option<string>
    requires |n| == |m.variables| && newArgs != []
    decreases Budget(n), 0, 1
  {
    var a := Argument(args, newArgs[0]);
    if a.Some? then a else FnVal(m, n, newArgs)
  }

  /** Can the expansion of variable 'v' start? */
  predicate MayExpand(n: Counts, v: nat, argCount: nat)
    requires v < |n|
  {
    if argCount == 1 then n[v] == 0 else n[v] <= 100
  }

  /** _fn_val() */
  function FnVal(m: Names, n: Counts, args: seq<string>): Option<string>
    requires |n| == |m.variables| && args != []
    decreases Budget(n), 0, 0
  {
    var v := FindVariable(m.variables, args[0]);
    if v.Some? then
      if !MayExpand(n, v.value, |args|) then None else
      BudgetShrinks(n, v.value);
      ExpandWhole(m, n[v.value := n[v.value] + 1], m.variables[v.value].value, 0, args)
    else
      var c := m.call(args[0], args[1..]);
      match c
      case Failed => None
      case Value(text) => Some(text)
      case Undefined => var e := m.environ(args[0]); Some(if e.Some? then e.value else "")
  }

  /** _expand_whole(), from position 'i' on. */
  function ExpandWhole(m: Names, n: Counts, s: string, i: nat, args: seq<string>): Option<string>
    requires |n| == |m.variables| && i <= |s|
    decreases Budget(n), |s| - i, 2
  {
    var j := FindMacro(s, i);
    if j == |s| then Some(s) else
    var e := ExpandMacro(m, n, s, j, args);
    if e.None? then None else ExpandWhole(m, n, e.value.s, e.value.i, args)
  }
}
