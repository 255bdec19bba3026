/** What a macro call computes from its name and arguments: parameter passing is substitution. */
module MacroMeaning {
  import opened Wrappers
  import opened Numbers
  import opened Macros
  import opened MacroText

  /** Does the name of a call stand for the i-th argument of the macro that it is in? Argument 0
      is the name of that macro. Negative numbers count from the end. */
  ghost predicate IsArgument(name: string, args: seq<string>, i: nat) {
    i < |args| && (ParseInt(name, 10) == Some(i) || ParseInt(name, 10) == Some(i - |args|))
  }

  ghost predicate IsNoArgument(name: string, args: seq<string>) {
    forall i: nat :: !IsArgument(name, args, i)
  }

  /** The only variable with this name. */
  ghost predicate IsVariable(m: Names, name: string, v: nat) {
    v < |m.variables| && m.variables[v].name == name && forall w :: 0 <= w < |m.variables| && w != v ==> m.variables[w].name != name
  }

  ghost predicate IsNoVariable(m: Names, name: string) {
    forall w :: 0 <= w < |m.variables| ==> m.variables[w].name != name
  }

  /** An expansion of the variable that is in progress stops one without arguments; more than
      100 of them stop one with arguments. */
  ghost predicate Stuck(n: Counts, v: nat, vals: seq<string>)
    requires v < |n|
  {
    if |vals| == 1 then n[v] > 0 else n[v] > 100
  }

  lemma ArgumentIs(args: seq<string>, name: string)
    ensures forall i: nat :: IsArgument(name, args, i) ==> Argument(args, name) == Some(args[i])
    ensures IsNoArgument(name, args) ==> Argument(args, name) == None
  {
    hide ParseInt;
    var k := ParseInt(name, 10);
    if k.Some? && 0 <= k.value < |args| { assert IsArgument(name, args, k.value); }
    if k.Some? && -|args| <= k.value < 0 { assert IsArgument(name, args, |args| + k.value); }
  }

  lemma {:induction false} FindVariableIs(vs: seq<Variable>, name: string, v: nat)
    requires v < |vs| && vs[v].name == name && forall w :: 0 <= w < |vs| && w != v ==> vs[w].name != name
    ensures FindVariable(vs, name) == Some(v)
  {
    assert FindVariable(vs, name).Some? by { FindVariableFinds(vs, name, v); }
  }

  lemma {:induction false} FindVariableFinds(vs: seq<Variable>, name: string, v: nat)
    requires v < |vs| && vs[v].name == name
    ensures FindVariable(vs, name).Some?
  {
    if v < |vs| - 1 { FindVariableFinds(vs[..|vs| - 1], name, v); }
  }

  lemma CallEval(m: Names, n: Counts, parts: Parts, args: seq<string>)
    requires |n| == |m.variables|
    ensures Eval(m, n, Call(parts, End), args) == EvalCall(m, n, [], EvalParts(m, n, parts, args), args)
  {
    hide EvalCall, EvalParts;
    var v := EvalCall(m, n, [], EvalParts(m, n, parts, args), args);
    if v.Some? { assert v.value + "" == v.value; }
  }

  /** A call with parts 'vals', once they are evaluated. A number for which there is an argument
      gives this argument. Otherwise a variable gives the meaning of its value, in which the
      parts of this call are the arguments; then functions are tried, and the environment. */
  lemma CallIs(m: Names, n: Counts, parts: Parts, args: seq<string>, vals: seq<string>)
    requires |n| == |m.variables| && EvalParts(m, n, parts, args) == Some(vals) && vals != []
    ensures var r, name := Eval(m, n, Call(parts, End), args), vals[0];
            && (forall i: nat :: IsArgument(name, args, i) ==> r == Some(args[i]))
            && (IsNoArgument(name, args) ==>
                  && (forall v: nat, t: Text :: IsVariable(m, name, v) && Proper(t) && Show(t) == m.variables[v].value ==>
                        r == if Stuck(n, v, vals) then None else Eval(m, n[v := n[v] + 1], t, vals))
                  && (IsNoVariable(m, name) ==>
                        match m.call(name, vals[1..])
                        case Value(text) => r == Some(text)
                        case Failed => r == None
                        case Undefined => r == Some(if m.environ(name).Some? then m.environ(name).value else "")))
  {
    hide Eval, EvalParts, Proper, Show, ExpandWhole, Argument, FindVariable, FnVal, ParseInt;
    var name := vals[0];
    assert [] + vals == vals;
    CallEval(m, n, parts, args);
    ArgumentIs(args, name);
    if IsNoArgument(name, args) {
      forall v: nat, t: Text | IsVariable(m, name, v) && Proper(t) && Show(t) == m.variables[v].value
        ensures FnVal(m, n, vals) == if Stuck(n, v, vals) then None else Eval(m, n[v := n[v] + 1], t, vals)
      {
        VariableCall(m, n, vals, v, t);
      }
      if IsNoVariable(m, name) { OtherCall(m, n, vals); }
    }
  }

  lemma VariableCall(m: Names, n: Counts, vals: seq<string>, v: nat, t: Text)
    requires |n| == |m.variables| && vals != [] && IsVariable(m, vals[0], v) && Proper(t) && Show(t) == m.variables[v].value
    ensures FnVal(m, n, vals) == if Stuck(n, v, vals) then None else Eval(m, n[v := n[v] + 1], t, vals)
  {
    hide Eval, Proper, Show, ExpandWhole, FindVariable;
    FindVariableIs(m.variables, vals[0], v);
    if !Stuck(n, v, vals) {
      var n' := n[v := n[v] + 1];
      ExpansionIsMeaning(m, n', "", t, vals);
      var r := Eval(m, n', t, vals);
      assert "" + Show(t) == Show(t) && (r.Some? ==> "" + r.value == r.value);
    }
  }

  lemma OtherCall(m: Names, n: Counts, vals: seq<string>)
    requires |n| == |m.variables| && vals != [] && IsNoVariable(m, vals[0])
    ensures match m.call(vals[0], vals[1..])
            case Value(text) => FnVal(m, n, vals) == Some(text)
            case Failed => FnVal(m, n, vals) == None
            case Undefined => FnVal(m, n, vals) == Some(if m.environ(vals[0]).Some? then m.environ(vals[0]).value else "")
  {
    hide ExpandWhole;
  }

  // Substitution

  function Chars(s: string, rest: Text): Text {
    if s == [] then rest else Char(s[0], Chars(s[1..], rest))
  }

  /** A text without calls. */
  predicate Literal(t: Text) {
    match t
    case End => true
    case Char(_, rest) => Literal(rest)
    case Call(_, _) => false
  }

  /** At every level, the names of calls are written out, and calls that stand for arguments have
      no arguments themselves. */
  ghost predicate Plain(t: Text, args: seq<string>) {
    match t
    case End => true
    case Char(_, rest) => Plain(rest, args)
    case Call(parts, rest) =>
      Literal(parts.t) && (parts.Last? || IsNoArgument(Show(parts.t), args)) && PlainParts(parts, args) && Plain(rest, args)
  }

  ghost predicate PlainParts(parts: Parts, args: seq<string>) {
    Plain(parts.t, args) && (parts.More? ==> PlainParts(parts.rest, args))
  }

  /** The position of the argument that a name stands for. */
  ghost function Position(name: string, args: seq<string>): (r: Option<nat>)
    ensures r.Some? ==> IsArgument(name, args, r.value)
    ensures r.None? ==> IsNoArgument(name, args)
  {
    if i: nat :| IsArgument(name, args, i) then Some(i) else None
  }

  /** The text with every $(i) for which there is an argument replaced by this argument. */
  ghost function Subst(t: Text, args: seq<string>): Text {
    match t
    case End => End
    case Char(c, rest) => Char(c, Subst(rest, args))
    case Call(parts, rest) =>
      var i := Position(Show(parts.t), args);
      if i.Some? then Chars(args[i.value], Subst(rest, args)) else Call(SubstParts(parts, args), Subst(rest, args))
  }

  ghost function SubstParts(parts: Parts, args: seq<string>): Parts {
    match parts
    case Last(t) => Last(Subst(t, args))
    case More(t, rest) => More(Subst(t, args), SubstParts(rest, args))
  }

  lemma CharEval(m: Names, n: Counts, c: char, rest: Text, args: seq<string>)
    requires |n| == |m.variables|
    ensures Eval(m, n, Char(c, rest), args) == Join(Some([c]), Eval(m, n, rest, args))
  {
    hide EvalCall, EvalParts;
  }

  lemma {:induction false} CharsEval(m: Names, n: Counts, s: string, rest: Text, args: seq<string>)
    requires |n| == |m.variables|
    ensures Eval(m, n, Chars(s, rest), args) == Join(Some(s), Eval(m, n, rest, args))
  {
    hide Eval;
    var v := Eval(m, n, rest, args);
    if s == [] {
      if v.Some? { assert [] + v.value == v.value; }
    } else {
      CharEval(m, n, s[0], Chars(s[1..], rest), args);
      CharsEval(m, n, s[1..], rest, args);
      if v.Some? {
        Assoc([s[0]], s[1..], v.value);
        assert [s[0]] + s[1..] == s;
      }
    }
  }

  lemma {:induction false} LiteralEval(m: Names, n: Counts, t: Text, args: seq<string>)
    requires |n| == |m.variables| && Literal(t)
    ensures Eval(m, n, t, args) == Some(Show(t)) && Subst(t, args) == t
  {
    match t
    case End =>
    case Char(c, rest) => LiteralEval(m, n, rest, args);
  }

  /** What the parts of a call are replaced by has the same values without the arguments. */
  lemma {:induction false} SubstPartsEval(m: Names, n: Counts, parts: Parts, args: seq<string>)
    requires |n| == |m.variables| && PlainParts(parts, args)
    ensures EvalParts(m, n, parts, args) == EvalParts(m, n, SubstParts(parts, args), [])
    decreases parts, 1
  {
    SubstEval(m, n, parts.t, args);
    if parts.More? { SubstPartsEval(m, n, parts.rest, args); }
  }

  /** A name that is no argument number means the same without arguments. */
  lemma NoArgumentCall(m: Names, n: Counts, parts: Parts, parts': Parts, args: seq<string>)
    requires |n| == |m.variables| && EvalParts(m, n, parts, args) == EvalParts(m, n, parts', [])
    requires Literal(parts.t) && IsNoArgument(Show(parts.t), args)
    ensures EvalCall(m, n, [], EvalParts(m, n, parts, args), args) == EvalCall(m, n, [], EvalParts(m, n, parts', []), [])
  {
    hide FnVal, ParseInt, Eval, Argument;
    LiteralEval(m, n, parts.t, args);
    var vals := EvalParts(m, n, parts, args);
    if vals.Some? {
      assert [] + vals.value == vals.value;
      ArgumentIs(args, Show(parts.t));
      ArgumentIs([], Show(parts.t));
    }
  }

  /** Evaluating a text with arguments is evaluating it with the arguments filled in. */
  lemma {:induction false} SubstEval(m: Names, n: Counts, t: Text, args: seq<string>)
    requires |n| == |m.variables| && Plain(t, args)
    ensures Eval(m, n, t, args) == Eval(m, n, Subst(t, args), [])
    decreases t, 0
  {
    hide EvalCall, ParseInt;
    match t
    case End =>
    case Char(c, rest) => SubstEval(m, n, rest, args);
    case Call(parts, rest) =>
      SubstEval(m, n, rest, args);
      SubstPartsEval(m, n, parts, args);
      var i := Position(Show(parts.t), args);
      if i.Some? {
        ArgumentCall(m, n, parts, args, i.value);
        CharsEval(m, n, args[i.value], Subst(rest, args), []);
      } else {
        NoArgumentCall(m, n, parts, SubstParts(parts, args), args);
      }
  }

  lemma ArgumentCall(m: Names, n: Counts, parts: Parts, args: seq<string>, i: nat)
    requires |n| == |m.variables| && Literal(parts.t) && parts.Last? && IsArgument(Show(parts.t), args, i)
    ensures EvalCall(m, n, [], EvalParts(m, n, parts, args), args) == Some(args[i])
  {
    hide FnVal, ParseInt, Eval, Argument;
    LiteralEval(m, n, parts.t, args);
    ArgumentIs(args, Show(parts.t));
    assert [] + [Show(parts.t)] == [Show(parts.t)];
  }

  /** Calling a variable whose value is the text of 't' means what 't' means once every $(i), for
      i from 0 to the number of arguments, is replaced by argument i. */
  lemma CallIsSubstitution(m: Names, n: Counts, parts: Parts, args: seq<string>, vals: seq<string>, v: nat, t: Text)
    requires |n| == |m.variables| && EvalParts(m, n, parts, args) == Some(vals) && vals != []
    requires IsNoArgument(vals[0], args) && IsVariable(m, vals[0], v) && !Stuck(n, v, vals)
    requires Proper(t) && Show(t) == m.variables[v].value && Plain(t, vals)
    ensures Eval(m, n, Call(parts, End), args) == Eval(m, n[v := n[v] + 1], Subst(t, vals), [])
  {
    hide Eval, EvalParts, Proper, Show, Subst, Plain;
    CallIs(m, n, parts, args, vals);
    SubstEval(m, n[v := n[v] + 1], t, vals);
  }
}
