/** What macro expansion means: text with macro calls in it, as a tree, is evaluated from the
    inside out and from left to right, and what comes out of a call is not looked at again. */
module MacroText {
  import opened Wrappers
  import opened Macros

  /** Characters and macro calls. */
  datatype Text = End | Char(c: char, rest: Text) | Call(parts: Parts, rest: Text)

  /** The name of a macro, and its arguments. */
  datatype Parts = Last(t: Text) | More(t: Text, rest: Parts)

  function Show(t: Text): string {
    match t
    case End => ""
    case Char(c, rest) => [c] + Show(rest)
    case Call(parts, rest) => "$(" + (ShowParts(parts) + (")" + Show(rest)))
  }

  function ShowParts(parts: Parts): string {
    match parts
    case Last(t) => Show(t)
    case More(t, rest) => Show(t) + ("," + ShowParts(rest))
  }

  // Meaning

  /** Text followed by text, unless there is an error in either. */
  function Join(a: Option<string>, b: Option<string>): Option<string> {
    if a.None? || b.None? then None else Some(a.value + b.value)
  }

  function Eval(m: Names, n: Counts, t: Text, args: seq<string>): Option<string>
    requires |n| == |m.variables|
  {
    match t
    case End => Some("")
    case Char(c, rest) => Join(Some([c]), Eval(m, n, rest, args))
    case Call(parts, rest) => Join(EvalCall(m, n, [], EvalParts(m, n, parts, args), args), Eval(m, n, rest, args))
  }

  function EvalParts(m: Names, n: Counts, parts: Parts, args: seq<string>): (r: Option<seq<string>>)
    requires |n| == |m.variables|
    ensures r.Some? ==> r.value != []
  {
    var first := Eval(m, n, parts.t, args);
    if first.None? then None else
    match parts
    case Last(_) => Some([first.value])
    case More(_, more) =>
      var rest := EvalParts(m, n, more, args);
      if rest.None? then None else Some([first.value] + rest.value)
  }

  /** The value of a call, the first parts of which have been evaluated. */
  function EvalCall(m: Names, n: Counts, before: seq<string>, parts: Option<seq<string>>, args: seq<string>): Option<string>
    requires |n| == |m.variables| && (parts.Some? ==> parts.value != [])
  {
    if parts.None? then None else MacroVal(m, n, before + parts.value, args)
  }

  // Which trees are text

  /** A "$(" in the text stands for a call. */
  predicate Proper(t: Text) {
    match t
    case End => true
    case Char(c, rest) => (c == '$' ==> !(rest.Char? && rest.c == '(')) && Proper(rest)
    case Call(parts, rest) => ProperParts(parts) && Proper(rest)
  }

  /** In the arguments of a call, besides, parentheses are balanced, and commas are in
      parentheses. */
  predicate ProperParts(parts: Parts) {
    && Proper(parts.t) && Balanced(parts.t, 0)
    && (parts.More? ==> ProperParts(parts.rest))
  }

  predicate Balanced(t: Text, depth: nat) {
    match t
    case End => depth == 0
    case Char(c, rest) => (c == ')' || c == ',' ==> depth > 0) && Balanced(rest, Depth(c, depth))
    case Call(_, rest) => Balanced(rest, depth)
  }

  /** The nesting level after a character. */
  function Depth(c: char, depth: nat): nat {
    if c == '(' then depth + 1 else if c == ')' && depth > 0 then depth - 1 else depth
  }

  // The scanner between what it has gone over and what comes next

  function ScanAt(m: Names, n: Counts, done: string, rest: string, args: seq<string>,
                  start: nat, argStart: nat, newArgs: seq<string>, nesting: nat): Option<Expanded>
    requires |n| == |m.variables| && start < argStart <= |done|
  {
    Scan(m, n, done + rest, |done|, args, start, argStart, newArgs, nesting)
  }

  lemma ScanSpecial(m: Names, n: Counts, s: string, i: nat, args: seq<string>,
                    start: nat, argStart: nat, newArgs: seq<string>, nesting: nat)
    requires |n| == |m.variables| && start < argStart <= i < |s| && SpecialAt(s, i)
    ensures var r := Scan(m, n, s, i, args, start, argStart, newArgs, nesting);
            if MacroAt(s, i) then
              var e := ExpandMacro(m, n, s, i, args);
              r == if e.None? then None else Scan(m, n, e.value.s, e.value.i, args, start, argStart, newArgs, nesting)
            else if s[i] == '(' then r == Scan(m, n, s, i + 1, args, start, argStart, newArgs, nesting + 1)
            else if s[i] == ')' then
              if nesting > 0 then r == Scan(m, n, s, i + 1, args, start, argStart, newArgs, nesting - 1) else
              var v := MacroVal(m, n, newArgs + [s[argStart..i]], args);
              r == if v.None? then None else Some(Expanded(s[..start] + v.value + s[i + 1..], start + |v.value|))
            else
              if nesting > 0 then r == Scan(m, n, s, i + 1, args, start, argStart, newArgs, nesting)
              else r == Scan(m, n, s, i + 1, args, start, i + 1, newArgs + [s[argStart..i]], 0)
  {
    hide ExpandMacro, MacroVal;
    assert FindSpecial(s, i) == i;
  }

  lemma ScanSkips(m: Names, n: Counts, s: string, i: nat, args: seq<string>,
                  start: nat, argStart: nat, newArgs: seq<string>, nesting: nat)
    requires |n| == |m.variables| && start < argStart <= i < |s| && !SpecialAt(s, i)
    ensures Scan(m, n, s, i, args, start, argStart, newArgs, nesting) == Scan(m, n, s, i + 1, args, start, argStart, newArgs, nesting)
  {
    hide ExpandMacro, MacroVal;
    assert FindSpecial(s, i) == FindSpecial(s, i + 1);
  }

  /** At a character of an argument, the scanner goes on behind it. */
  lemma ScanChar(m: Names, n: Counts, done: string, c: char, rest: string, args: seq<string>,
                 start: nat, argStart: nat, newArgs: seq<string>, nesting: nat)
    requires |n| == |m.variables| && start < argStart <= |done|
    requires c == '$' ==> rest == [] || rest[0] != '('
    requires c == ')' || c == ',' ==> nesting > 0
    ensures ScanAt(m, n, done, [c] + rest, args, start, argStart, newArgs, nesting)
            == ScanAt(m, n, done + [c], rest, args, start, argStart, newArgs, Depth(c, nesting))
  {
    hide Scan;
    var s := done + ([c] + rest);
    assert s == done + [c] + rest && s[|done|] == c && (rest != [] ==> s[|done| + 1] == rest[0]);
    if c == '(' || c == ')' || c == ',' {
      ScanSpecial(m, n, s, |done|, args, start, argStart, newArgs, nesting);
    } else {
      ScanSkips(m, n, s, |done|, args, start, argStart, newArgs, nesting);
    }
  }

  /** What the value of a call makes of the text. */
  function Replaced(done: string, v: Option<string>, rest: string): Option<Expanded> {
    if v.None? then None else Some(Expanded(done + v.value + rest, |done + v.value|))
  }

  /** At a call, the scanner goes on behind its value. */
  lemma ScanCall(m: Names, n: Counts, done: string, call: string, v: Option<string>, rest: string, args: seq<string>,
                 start: nat, argStart: nat, newArgs: seq<string>, nesting: nat)
    requires |n| == |m.variables| && start < argStart <= |done| && MacroAt(done + call, |done|)
    requires ExpandMacro(m, n, done + call, |done|, args) == Replaced(done, v, rest)
    ensures ScanAt(m, n, done, call, args, start, argStart, newArgs, nesting)
            == if v.None? then None else ScanAt(m, n, done + v.value, rest, args, start, argStart, newArgs, nesting)
  {
    hide Scan, ExpandMacro;
    ScanSpecial(m, n, done + call, |done|, args, start, argStart, newArgs, nesting);
  }

  /** At the end of an argument that is not the last one. */
  lemma ScanComma(m: Names, n: Counts, done: string, arg: string, rest: string, args: seq<string>,
                  start: nat, newArgs: seq<string>)
    requires |n| == |m.variables| && start < |done|
    ensures ScanAt(m, n, done + arg, "," + rest, args, start, |done|, newArgs, 0)
            == ScanAt(m, n, done + arg + ",", rest, args, start, |done + arg + ","|, newArgs + [arg], 0)
  {
    hide Scan;
    var s, i := done + arg + ("," + rest), |done + arg|;
    assert s == done + arg + "," + rest && s[i] == ',' && s[|done|..i] == arg;
    ScanSpecial(m, n, s, i, args, start, |done|, newArgs, 0);
  }

  /** At the end of the macro. */
  lemma ScanEnd(m: Names, n: Counts, before: string, done: string, arg: string, rest: string, args: seq<string>,
                newArgs: seq<string>)
    requires |n| == |m.variables| && done != []
    ensures ScanAt(m, n, before + done + arg, ")" + rest, args, |before|, |before + done|, newArgs, 0)
            == Replaced(before, MacroVal(m, n, newArgs + [arg], args), rest)
  {
    hide Scan, MacroVal;
    var s, i := before + done + arg + (")" + rest), |before + done + arg|;
    assert s[i] == ')' && s[|before + done|..i] == arg && s[..|before|] == before && s[i + 1..] == rest;
    ScanSpecial(m, n, s, i, args, |before|, |before + done|, newArgs, 0);
  }

  lemma Assoc(a: string, b: string, c: string)
    ensures (a + b) + c == a + (b + c)
  {
  }

  // The scanner computes the meaning

  /** The scanner goes over an argument and replaces it by its value. */
  lemma {:induction false} ScanText(m: Names, n: Counts, done: string, t: Text, rest: string, args: seq<string>,
                                    start: nat, argStart: nat, newArgs: seq<string>, nesting: nat)
    requires |n| == |m.variables| && start < argStart <= |done|
    requires Proper(t) && Balanced(t, nesting) && rest != [] && rest[0] != '('
    ensures var v := Eval(m, n, t, args);
            ScanAt(m, n, done, Show(t) + rest, args, start, argStart, newArgs, nesting)
            == if v.None? then None else ScanAt(m, n, done + v.value, rest, args, start, argStart, newArgs, 0)
    decreases t, 1
  {
    hide ScanAt, ExpandMacro, EvalCall;
    match t
    case End =>
      assert done + "" == done && "" + rest == rest;
    case Char(c, more) =>
      NotOpen(t, rest);
      Assoc([c], Show(more), rest);
      ScanChar(m, n, done, c, Show(more) + rest, args, start, argStart, newArgs, nesting);
      ScanText(m, n, done + [c], more, rest, args, start, argStart, newArgs, Depth(c, nesting));
      var v := Eval(m, n, more, args);
      if v.Some? { Assoc(done, [c], v.value); }
    case Call(parts, more) =>
      var v := EvalCall(m, n, [], EvalParts(m, n, parts, args), args);
      ShowCall(parts, more, rest);
      CallExpands(m, n, done, parts, Show(more) + rest, args);
      ScanCall(m, n, done, ShowMacro(parts, Show(more) + rest), v, Show(more) + rest, args, start, argStart, newArgs, nesting);
      if v.Some? {
        ScanText(m, n, done + v.value, more, rest, args, start, argStart, newArgs, nesting);
        var w := Eval(m, n, more, args);
        if w.Some? { Assoc(done, v.value, w.value); }
      }
  }

  /** A '$' is not followed by '('. */
  lemma NotOpen(t: Text, rest: string)
    requires t.Char? && Proper(t) && (rest != [] ==> rest[0] != '(')
    ensures t.c == '$' ==> var more := Show(t.rest) + rest; more == [] || more[0] != '('
  {
  }

  function ShowMacro(parts: Parts, rest: string): string {
    "$(" + (ShowParts(parts) + (")" + rest))
  }

  lemma ShowCall(parts: Parts, more: Text, rest: string)
    ensures Show(Call(parts, more)) + rest == ShowMacro(parts, Show(more) + rest)
  {
    Assoc("$(", ShowParts(parts) + (")" + Show(more)), rest);
    Assoc(ShowParts(parts), ")" + Show(more), rest);
    Assoc(")", Show(more), rest);
  }

  /** A call in the text is replaced by its value. */
  lemma {:induction false} CallExpands(m: Names, n: Counts, done: string, parts: Parts, rest: string, args: seq<string>)
    requires |n| == |m.variables| && ProperParts(parts)
    ensures MacroAt(done + ShowMacro(parts, rest), |done|)
    ensures ExpandMacro(m, n, done + ShowMacro(parts, rest), |done|, args)
            == Replaced(done, EvalCall(m, n, [], EvalParts(m, n, parts, args), args), rest)
    decreases parts, 3
  {
    hide Scan, EvalCall, EvalParts, ShowParts;
    var s := done + ShowMacro(parts, rest);
    assert s[|done|] == '$' && s[|done| + 1] == '(';
    Assoc(done, "$(", ShowParts(parts) + (")" + rest));
    ScanParts(m, n, done, "$(", parts, rest, args, []);
  }

  /** The scanner goes over the parts of a call. */
  lemma {:induction false} ScanParts(m: Names, n: Counts, before: string, done: string, parts: Parts, rest: string,
                                     args: seq<string>, newArgs: seq<string>)
    requires |n| == |m.variables| && ProperParts(parts) && done != []
    ensures ScanAt(m, n, before + done, ShowParts(parts) + (")" + rest), args, |before|, |before + done|, newArgs, 0)
            == Replaced(before, EvalCall(m, n, newArgs, EvalParts(m, n, parts, args), args), rest)
    decreases parts, 2
  {
    hide ScanAt, MacroVal, Eval, Proper, Balanced;
    var v := Eval(m, n, parts.t, args);
    match parts
    case Last(t) =>
      ScanText(m, n, before + done, t, ")" + rest, args, |before|, |before + done|, newArgs, 0);
      if v.Some? { ScanEnd(m, n, before, done, v.value, rest, args, newArgs); }
    case More(t, more) =>
      var tail := ShowParts(more) + (")" + rest);
      Assoc(Show(t), "," + ShowParts(more), ")" + rest);
      Assoc(",", ShowParts(more), ")" + rest);
      ScanText(m, n, before + done, t, "," + tail, args, |before|, |before + done|, newArgs, 0);
      if v.Some? {
        var done' := done + v.value + ",";
        ScanComma(m, n, before + done, v.value, tail, args, |before|, newArgs);
        assert before + done + v.value + "," == before + done';
        ScanParts(m, n, before, done', more, rest, args, newArgs + [v.value]);
        var vals := EvalParts(m, n, more, args);
        if vals.Some? { assert newArgs + [v.value] + vals.value == newArgs + ([v.value] + vals.value); }
      }
  }

  /** Expanding all of a text gives its meaning: what is outside of the calls is unchanged,
      and each call is replaced by its value, which is not expanded again. */
  lemma {:induction false} ExpansionIsMeaning(m: Names, n: Counts, done: string, t: Text, args: seq<string>)
    requires |n| == |m.variables| && Proper(t)
    ensures ExpandWhole(m, n, done + Show(t), |done|, args) == Join(Some(done), Eval(m, n, t, args))
    decreases t
  {
    hide ExpandMacro, EvalCall;
    match t
    case End =>
    case Char(c, more) =>
      NotOpen(t, "");
      assert Show(more) + "" == Show(more);
      WholeSkips(m, n, done, c, Show(more), args);
      ExpansionIsMeaning(m, n, done + [c], more, args);
      var v := Eval(m, n, more, args);
      if v.Some? { Assoc(done, [c], v.value); }
    case Call(parts, more) =>
      var v := EvalCall(m, n, [], EvalParts(m, n, parts, args), args);
      CallExpands(m, n, done, parts, Show(more), args);
      WholeExpands(m, n, done, ShowMacro(parts, Show(more)), v, Show(more), args);
      if v.Some? {
        ExpansionIsMeaning(m, n, done + v.value, more, args);
        var w := Eval(m, n, more, args);
        if w.Some? { Assoc(done, v.value, w.value); }
      }
  }

  lemma WholeSkips(m: Names, n: Counts, done: string, c: char, rest: string, args: seq<string>)
    requires |n| == |m.variables| && (c == '$' ==> rest == [] || rest[0] != '(')
    ensures ExpandWhole(m, n, done + ([c] + rest), |done|, args) == ExpandWhole(m, n, done + [c] + rest, |done + [c]|, args)
  {
    hide ExpandMacro;
    var s := done + ([c] + rest);
    assert s == done + [c] + rest && s[|done|] == c && (rest != [] ==> s[|done| + 1] == rest[0]);
    assert FindMacro(s, |done|) == FindMacro(s, |done| + 1);
  }

  lemma WholeExpands(m: Names, n: Counts, done: string, call: string, v: Option<string>, rest: string, args: seq<string>)
    requires |n| == |m.variables| && MacroAt(done + call, |done|)
    requires ExpandMacro(m, n, done + call, |done|, args) == Replaced(done, v, rest)
    ensures ExpandWhole(m, n, done + call, |done|, args)
            == if v.None? then None else ExpandWhole(m, n, done + v.value + rest, |done + v.value|, args)
  {
    hide ExpandMacro;
    assert FindMacro(done + call, |done|) == |done|;
  }

  // Text without a meaning

  /** What the scanner has in front of it in the middle of a call: the rest of an argument,
      perhaps more arguments, and what comes after the call. */
  function InCall(t: Text, more: Option<Parts>, tail: string): string {
    Show(t) + (if more.Some? then "," + (ShowParts(more.value) + (")" + tail)) else ")" + tail)
  }

  /** If the scanner succeeds, it was in the middle of a call. */
  lemma {:induction false} ScanHasTree(m: Names, n: Counts, done: string, rest: string, args: seq<string>,
                                       start: nat, argStart: nat, newArgs: seq<string>, nesting: nat)
      returns (t: Text, more: Option<Parts>, tail: string)
    requires |n| == |m.variables| && start < argStart <= |done|
    requires ScanAt(m, n, done, rest, args, start, argStart, newArgs, nesting).Some?
    ensures rest == InCall(t, more, tail) && Proper(t) && Balanced(t, nesting) && (more.Some? ==> ProperParts(more.value))
    decreases |rest|, 1
  {
    hide Scan, ExpandMacro, EvalCall, EvalParts, MacroVal, Proper, Balanced, ProperParts, ShowParts;
    assert rest != [] by { NothingScanned(m, n, done, args, start, argStart, newArgs, nesting); }
    var c := rest[0];
    assert rest == [c] + rest[1..];
    if MacroAt(rest, 0) {
      MacroShifted(done, rest);
      ScanSpecial(m, n, done + rest, |done|, args, start, argStart, newArgs, nesting);
      var parts, rest' := CallHasTree(m, n, done, rest, args);
      var v := EvalCall(m, n, [], EvalParts(m, n, parts, args), args);
      CallExpands(m, n, done, parts, rest', args);
      ScanCall(m, n, done, rest, v, rest', args, start, argStart, newArgs, nesting);
      var t';
      t', more, tail := ScanHasTree(m, n, done + v.value, rest', args, start, argStart, newArgs, nesting);
      t := Call(parts, t');
      ShowCall(parts, t', InCall(End, more, tail));
      CallIsProper(parts, t', nesting);
      InCallStarts(t', more, tail);
      InCallStarts(t, more, tail);
    } else if (c == ')' || c == ',') && nesting == 0 {
      t := End;
      EndIsProper();
      if c == ')' {
        more, tail := None, rest[1..];
        InCallStarts(t, more, tail);
      } else {
        CommaShifted(m, n, done, rest[1..], args, start, argStart, newArgs);
        var t', more';
        t', more', tail := ScanHasTree(m, n, done + ",", rest[1..], args, start, |done + ","|,
                                       newArgs + [(done + rest)[argStart..|done|]], 0);
        more := Some(if more'.None? then Last(t') else More(t', more'.value));
        PartsAreProper(t', more');
        InCallParts(t', more', tail);
        InCallStarts(t, more, tail);
      }
    } else {
      ScanChar(m, n, done, c, rest[1..], args, start, argStart, newArgs, nesting);
      var t';
      t', more, tail := ScanHasTree(m, n, done + [c], rest[1..], args, start, argStart, newArgs, Depth(c, nesting));
      t := Char(c, t');
      InCallStarts(t', more, tail);
      InCallStarts(t, more, tail);
      Assoc([c], Show(t'), InCall(End, more, tail));
      CharIsProper(c, t', more, tail, nesting);
    }
  }

  /** If a macro can be expanded, it is a call. */
  lemma {:induction false} CallHasTree(m: Names, n: Counts, done: string, rest: string, args: seq<string>)
      returns (parts: Parts, rest': string)
    requires |n| == |m.variables| && MacroAt(rest, 0) && MacroAt(done + rest, |done|)
    requires ExpandMacro(m, n, done + rest, |done|, args).Some?
    ensures rest == ShowMacro(parts, rest') && ProperParts(parts) && |rest'| < |rest|
    decreases |rest|, 0
  {
    hide Scan, Proper, Balanced, ProperParts, Show, ShowParts;
    assert rest == "$(" + rest[2..] && done + rest == done + "$(" + rest[2..];
    var t, more;
    t, more, rest' := ScanHasTree(m, n, done + "$(", rest[2..], args, |done|, |done| + 2, [], 0);
    parts := if more.None? then Last(t) else More(t, more.value);
    PartsAreProper(t, more);
    InCallParts(t, more, rest');
  }

  lemma NothingScanned(m: Names, n: Counts, done: string, args: seq<string>,
                       start: nat, argStart: nat, newArgs: seq<string>, nesting: nat)
    requires |n| == |m.variables| && start < argStart <= |done|
    ensures ScanAt(m, n, done, [], args, start, argStart, newArgs, nesting).None?
  {
    assert done + [] == done;
  }

  lemma MacroShifted(done: string, rest: string)
    ensures MacroAt(rest, 0) <==> MacroAt(done + rest, |done|)
  {
  }

  lemma CommaShifted(m: Names, n: Counts, done: string, rest: string, args: seq<string>,
                     start: nat, argStart: nat, newArgs: seq<string>)
    requires |n| == |m.variables| && start < argStart <= |done|
    ensures ScanAt(m, n, done, "," + rest, args, start, argStart, newArgs, 0)
            == ScanAt(m, n, done + ",", rest, args, start, |done + ","|, newArgs + [(done + ("," + rest))[argStart..|done|]], 0)
  {
    hide Scan;
    Assoc(done, ",", rest);
    assert (done + ("," + rest))[|done|] == ',';
    ScanSpecial(m, n, done + ("," + rest), |done|, args, start, argStart, newArgs, 0);
  }

  lemma InCallStarts(t: Text, more: Option<Parts>, tail: string)
    ensures InCall(t, more, tail) == Show(t) + InCall(End, more, tail)
  {
    assert "" + InCall(End, more, tail) == InCall(End, more, tail);
  }

  lemma InCallParts(t: Text, more: Option<Parts>, tail: string)
    ensures InCall(t, more, tail) == ShowParts(if more.None? then Last(t) else More(t, more.value)) + (")" + tail)
  {
    if more.Some? {
      Assoc(Show(t), "," + ShowParts(more.value), ")" + tail);
      Assoc(",", ShowParts(more.value), ")" + tail);
    }
  }

  lemma PartsAreProper(t: Text, more: Option<Parts>)
    requires Proper(t) && Balanced(t, 0) && (more.Some? ==> ProperParts(more.value))
    ensures ProperParts(if more.None? then Last(t) else More(t, more.value))
  {
  }

  lemma EndIsProper()
    ensures Proper(End) && Balanced(End, 0)
  {
  }

  lemma CallIsProper(parts: Parts, t: Text, nesting: nat)
    requires ProperParts(parts) && Proper(t) && Balanced(t, nesting)
    ensures Proper(Call(parts, t)) && Balanced(Call(parts, t), nesting)
  {
  }

  lemma CharIsProper(c: char, t: Text, more: Option<Parts>, tail: string, nesting: nat)
    requires !MacroAt([c] + InCall(t, more, tail), 0) && (c == ')' || c == ',' ==> nesting > 0)
    requires Proper(t) && Balanced(t, Depth(c, nesting))
    ensures Proper(Char(c, t)) && Balanced(Char(c, t), nesting)
  {
  }

  /** If a text can be expanded at all, it is the text of some tree. */
  lemma {:induction false} WholeHasTree(m: Names, n: Counts, done: string, rest: string, args: seq<string>)
      returns (t: Text)
    requires |n| == |m.variables| && ExpandWhole(m, n, done + rest, |done|, args).Some?
    ensures Proper(t) && Show(t) == rest
    decreases |rest|
  {
    hide ExpandMacro, EvalCall, EvalParts, ShowParts, ProperParts;
    if rest == [] {
      t := End;
    } else if MacroAt(rest, 0) {
      MacroShifted(done, rest);
      assert FindMacro(done + rest, |done|) == |done|;
      var parts, rest' := CallHasTree(m, n, done, rest, args);
      var v := EvalCall(m, n, [], EvalParts(m, n, parts, args), args);
      CallExpands(m, n, done, parts, rest', args);
      WholeExpands(m, n, done, rest, v, rest', args);
      var t' := WholeHasTree(m, n, done + v.value, rest', args);
      t := Call(parts, t');
    } else {
      var c := rest[0];
      assert rest == [c] + rest[1..];
      WholeSkips(m, n, done, c, rest[1..], args);
      var t' := WholeHasTree(m, n, done + [c], rest[1..], args);
      t := Char(c, t');
    }
  }

  /** Expansion succeeds exactly on text that is the text of a tree with a value, and then gives
      this value. Everything else (a missing parenthesis, or an error in a macro) is an error. */
  lemma ExpansionIsExact(m: Names, n: Counts, s: string, args: seq<string>, r: string)
    requires |n| == |m.variables|
    ensures ExpandWhole(m, n, s, 0, args) == Some(r) <==>
            exists t :: Proper(t) && Show(t) == s && Eval(m, n, t, args) == Some(r)
  {
    hide ExpandWhole, Eval, Proper, Show;
    assert "" + s == s && "" + r == r;
    if ExpandWhole(m, n, s, 0, args).Some? {
      var t := WholeHasTree(m, n, "", s, args);
      ExpansionIsMeaning(m, n, "", t, args);
      assert Eval(m, n, t, args).Some? ==> "" + Eval(m, n, t, args).value == Eval(m, n, t, args).value;
    }
    if t :| Proper(t) && Show(t) == s && Eval(m, n, t, args) == Some(r) {
      ExpansionIsMeaning(m, n, "", t, args);
    }
  }
}
