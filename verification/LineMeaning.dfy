/** What loading does to the user's input, in terms of the text of the lines. */
module LineMeaning {
  import opened Wrappers
  import opened Tristate
  import opened Numbers
  import opened Expressions
  import opened Evaluation
  import opened Semantics
  import opened Dependencies
  import opened Inputs
  import opened ConfigText
  import opened Loading

  /** Symbol 's' is the only one with this name. */
  ghost predicate Names(k: Config, s: nat, name: string) {
    s < |k.syms| && k.syms[s].name == name && forall x :: 0 <= x < |k.syms| && x != s ==> k.syms[x].name != name
  }

  /** The value a bool or tristate symbol gets from the text after the '=': the first character
      decides, and m is for tristate symbols only. */
  ghost predicate Means(ty: Ty, val: string, t: Tri) {
    val != "" && val[0] == (match t case 0 => 'n' case 1 => 'm' case 2 => 'y') && (t == 1 ==> ty.Tristate?)
  }

  ghost predicate MeansNothing(ty: Ty, val: string) {
    forall t: Tri :: !Means(ty, val, t)
  }

  /** Symbol 's' has got user value 'v'. If it is a choice symbol and 'v' is m or y, the choice
      has got that as its mode, unless it is a bool choice and 'v' is m; and if 'v' is y, the
      symbol has been selected. Nothing else has changed. */
  ghost predicate Assigned(k: Config, u: Input, s: nat, v: UserVal, u': Input) {
    && |u'.vals| == |u'.symSet| == |k.syms| && |u'.modes| == |u'.sels| == |u'.chSet| == |k.choices|
    && |u.vals| == |u.symSet| == |k.syms| && |u.modes| == |u.sels| == |u.chSet| == |k.choices|
    && (forall x :: 0 <= x < |k.syms| ==>
          && u'.vals[x] == (if x == s then v else u.vals[x])
          && u'.symSet[x] == (x == s || u.symSet[x]))
    && (forall c :: 0 <= c < |k.choices| ==>
          var mine := k.Sym(s).choice == Some(c) && v.TriVal?;
          var moves := mine && ((v == TriVal(1) && k.Choice(c).ty.Tristate?) || (v == TriVal(2) && k.Choice(c).ty.Logic()));
          && u'.modes[c] == (if moves then Some(v.t) else u.modes[c])
          && u'.sels[c] == (if mine && v == TriVal(2) then Some(s) else u.sels[c])
          && u'.chSet[c] == (u.chSet[c] || moves || (mine && v == TriVal(2))))
  }

  ghost predicate IsAssignment(raw: string, name: string, val: string, blanks: string) {
    name != [] && '=' !in name && Blank(blanks) && (val == [] || !IsSpace(val[|val| - 1]))
    && raw == AssignLine(name, val) + blanks
  }

  ghost predicate IsUnset(raw: string, name: string, more: string) {
    name != [] && ' ' !in name && raw == UnsetLine(name) + more
  }

  lemma AssignmentRead(raw: string, name: string, val: string, blanks: string)
    requires IsAssignment(raw, name, val, blanks)
    ensures ReadLine(raw) == Assign(name, val)
  {
    hide RStrip, SetMatch, UnsetMatch;
    var line := AssignLine(name, val);
    assert line[|line| - 1] == if val == [] then '=' else val[|val| - 1];
    RStripIs(line, blanks);
    SetMatchIsExact(line, name, val);
  }

  lemma UnsetRead(raw: string, name: string, more: string)
    requires IsUnset(raw, name, more)
    ensures ReadLine(raw) == Unset(name)
  {
    hide RStrip, UnsetMatch;
    var line := RStrip(raw);
    var end := |UnsetLine(name)|;
    assert raw[end - 1] == UNSET[|UNSET| - 1] == 't' && raw[0] == '#';
    RStripKeeps(raw, end - 1);
    assert UnsetLine(name) <= line;
    UnsetMatchIsExact(line, name);
  }

  lemma OneLine(k: Config, raw: string)
    ensures ParseLines(k, [raw]) == if ParseLine(k, raw).Some? then [ParseLine(k, raw).value] else []
  {
    hide ParseLine;
    var none: seq<string> := [];
    assert [raw][..0] == none && ParseLines(k, none) == [];
  }

  lemma LoadedOne(k: Config, u: Input, raw: string)
    ensures Load(k, u, [raw], false) == if ParseLine(k, raw).Some? then LoadOne(k, u, ParseLine(k, raw).value) else u
  {
    hide ParseLine, ParseLines, LoadOne;
    OneLine(k, raw);
    var none: seq<Assignment> := [];
    if ParseLine(k, raw).Some? {
      var a := ParseLine(k, raw).value;
      assert [a][..0] == none && LoadAll(k, u, none) == u;
    }
  }

  lemma LoadedAssigns(k: Config, u: Input, s: nat, text: string, v: UserVal)
    requires Closed(k) && InputOk(k, u) && s < |k.syms| && Accepted(k.Sym(s).ty, Text(text)) == Some(v)
    ensures Assigned(k, u, s, v, LoadOne(k, u, Assignment(s, text)))
  {
    hide LoadOne, Closed, InputOk, ParseInt;
    InputInBounds(k, u);
    LoadOneIs(k, u, Assignment(s, text));
  }

  // Assignments to bool and tristate symbols

  /** The line CONFIG_FOO=... for a bool or tristate symbol FOO. */
  lemma LogicLineIs(k: Config, u: Input, s: nat, raw: string, name: string, val: string, blanks: string)
    requires Closed(k) && InputOk(k, u) && Names(k, s, name) && k.Sym(s).ty.Logic() && IsAssignment(raw, name, val, blanks)
    ensures forall t: Tri :: Means(k.Sym(s).ty, val, t) ==> Assigned(k, u, s, TriVal(t), Load(k, u, [raw], false))
    ensures MeansNothing(k.Sym(s).ty, val) ==> Load(k, u, [raw], false) == u
  {
    hide Closed, InputOk, ReadLine, Load, LoadOne, Assigned;
    LoadedOne(k, u, raw);
    AssignmentRead(raw, name, val, blanks);
    assert FindSym(k.syms, name) == Some(s);
    var ty := k.Sym(s).ty;
    if t: Tri :| Means(ty, val, t) {
      var text := TriToStr(t);
      assert val[..1] == text;
      LoadedAssigns(k, u, s, text, TriVal(t));
    } else {
      assert !Means(ty, val, 0) && !Means(ty, val, 1) && !Means(ty, val, 2);
    }
  }

  /** The line '# CONFIG_FOO is not set' stands for n, and means nothing for other types. */
  lemma UnsetLineIs(k: Config, u: Input, s: nat, raw: string, name: string, more: string)
    requires Closed(k) && InputOk(k, u) && Names(k, s, name) && IsUnset(raw, name, more)
    ensures if k.Sym(s).ty.Logic() then Assigned(k, u, s, TriVal(0), Load(k, u, [raw], false))
            else Load(k, u, [raw], false) == u
  {
    hide Closed, InputOk, ReadLine, Load, LoadOne, Assigned;
    LoadedOne(k, u, raw);
    UnsetRead(raw, name, more);
    assert FindSym(k.syms, name) == Some(s);
    if k.Sym(s).ty.Logic() { LoadedAssigns(k, u, s, "n", TriVal(0)); }
  }

  // Assignments to other symbols

  /** A string symbol gets the text of the literal, without the backslashes; it is left alone if
      the text after the '=' does not start with a literal. */
  lemma StringLineIs(k: Config, u: Input, s: nat, raw: string, name: string, val: string, blanks: string)
    requires Closed(k) && InputOk(k, u) && Names(k, s, name) && k.Sym(s).ty.String? && IsAssignment(raw, name, val, blanks)
    ensures forall body :: Matches(val, body) ==> Assigned(k, u, s, StrVal(Unescape(body)), Load(k, u, [raw], false))
    ensures (forall body :: !Matches(val, body)) ==> Load(k, u, [raw], false) == u
  {
    hide Closed, InputOk, ReadLine, Load, LoadOne, Assigned, ConfStringMatch, Matches, Unescape;
    LoadedOne(k, u, raw);
    AssignmentRead(raw, name, val, blanks);
    assert FindSym(k.syms, name) == Some(s);
    forall body | Matches(val, body) ensures Assigned(k, u, s, StrVal(Unescape(body)), Load(k, u, [raw], false)) {
      ConfStringMatchIsExact(val, body);
      LoadedAssigns(k, u, s, Unescape(body), StrVal(Unescape(body)));
    }
    if ConfStringMatch(val).Some? { ConfStringMatchIsExact(val, ConfStringMatch(val).value); }
  }

  /** An int or hex symbol gets the text after the '=' if it is a number in the base of the type,
      and no negative one for hex. A symbol without a type is left alone. */
  lemma NumberLineIs(k: Config, u: Input, s: nat, raw: string, name: string, val: string, blanks: string)
    requires Closed(k) && InputOk(k, u) && Names(k, s, name) && IsAssignment(raw, name, val, blanks)
    requires k.Sym(s).ty.Int? || k.Sym(s).ty.Hex? || k.Sym(s).ty.Unknown?
    ensures var u' := Load(k, u, [raw], false);
            if (k.Sym(s).ty.Int? && ParseInt(val, 10).Some?)
               || (k.Sym(s).ty.Hex? && ParseInt(val, 16).Some? && ParseInt(val, 16).value >= 0)
            then Assigned(k, u, s, StrVal(val), u') else u' == u
  {
    hide Closed, InputOk, ReadLine, Load, Assigned, ParseInt;
    LoadedOne(k, u, raw);
    AssignmentRead(raw, name, val, blanks);
    assert FindSym(k.syms, name) == Some(s);
    if Accepted(k.Sym(s).ty, Text(val)).Some? { LoadedAssigns(k, u, s, val, StrVal(val)); }
  }

  // Lines that change nothing

  /** Assignments to undefined symbols. */
  lemma UndefinedLineIs(k: Config, u: Input, raw: string, name: string, rest: string, blanks: string)
    requires IsAssignment(raw, name, rest, blanks) || IsUnset(raw, name, rest)
    requires forall s :: 0 <= s < |k.syms| ==> k.syms[s].name != name
    ensures Load(k, u, [raw], false) == u
  {
    hide ReadLine, Load, LoadOne;
    LoadedOne(k, u, raw);
    if IsAssignment(raw, name, rest, blanks) { AssignmentRead(raw, name, rest, blanks); } else { UnsetRead(raw, name, rest); }
  }

  /** Lines of neither form. */
  lemma OtherLineIs(k: Config, u: Input, raw: string)
    requires forall name, val, blanks :: !IsAssignment(raw, name, val, blanks)
    requires forall name, more :: !IsUnset(raw, name, more)
    ensures Load(k, u, [raw], false) == u
  {
    hide RStrip, SetMatch, UnsetMatch, Load, LoadOne, Blank;
    LoadedOne(k, u, raw);
    var line := RStrip(raw);
    RStripLeavesBlanks(raw);
    var m := SetMatch(line);
    if m.Some? {
      var (name, val) := m.value;
      SetMatchIsExact(line, name, val);
      assert val != [] ==> val[|val| - 1] == line[|line| - 1];
      assert IsAssignment(raw, name, val, raw[|line|..]);
    }
    var n := UnsetMatch(line);
    if n.Some? {
      UnsetMatchIsExact(line, n.value);
      assert raw == UnsetLine(n.value) + raw[|UnsetLine(n.value)|..];
      assert IsUnset(raw, n.value, raw[|UnsetLine(n.value)|..]);
    }
  }

  // Whole files

  lemma {:induction false} LoadAllConcat(k: Config, u: Input, a: seq<Assignment>, b: seq<Assignment>)
    ensures LoadAll(k, u, a + b) == LoadAll(k, LoadAll(k, u, a), b)
  {
    hide LoadOne;
    if b == [] {
      assert a + b == a;
    } else {
      assert (a + b)[..|a + b| - 1] == a + b[..|b| - 1];
      LoadAllConcat(k, u, a, b[..|b| - 1]);
    }
  }

  /** Without replacing, a file is loaded line by line. */
  lemma LineByLine(k: Config, u: Input, lines: seq<string>, raw: string)
    ensures Load(k, u, [], false) == u
    ensures Load(k, u, lines + [raw], false) == Load(k, Load(k, u, lines, false), [raw], false)
  {
    hide ParseLine, LoadAll;
    var all := lines + [raw];
    assert all[..|all| - 1] == lines;
    OneLine(k, raw);
    LoadAllConcat(k, u, ParseLines(k, lines), ParseLines(k, [raw]));
    NothingLoaded(k, u);
  }

  lemma NothingLoaded(k: Config, u: Input)
    ensures LoadAll(k, u, []) == u
  {
  }

  /** With replacing, the user values are those that loading the file into a fresh instance gives.
      So are the mode and selection of a choice, except that one of them keeps its value if the
      file gives the choice only the other one. */
  lemma ReplacingIsFresh(k: Config, u: Input, lines: seq<string>)
    requires Closed(k) && InputOk(k, u)
    ensures var u', alone := Load(k, u, lines, true), Load(k, NoInput(k), lines, false);
            && |u'.vals| == |alone.vals| == |k.syms| && |u'.modes| == |u'.sels| == |alone.modes| == |alone.sels| == |k.choices|
            && |u.modes| == |u.sels| == |k.choices|
            && (forall s :: 0 <= s < |k.syms| ==> u'.vals[s] == alone.vals[s])
            && (forall c :: 0 <= c < |k.choices| ==>
                  var mode, sel := alone.modes[c], alone.sels[c];
                  && u'.modes[c] == (if mode.None? && sel.Some? then u.modes[c] else mode)
                  && u'.sels[c] == (if sel.None? && mode.Some? then u.sels[c] else sel))
  {
    hide ParseLines, FileVal, FileMode, FileSel, LoadAll, Closed, UnsetRest, ClearFlags;
    LoadIs(k, u, lines);
    NoInputOk(k);
    ParseLinesInBounds(k, lines);
    LoadAllIs(k, NoInput(k), ParseLines(k, lines));
  }
}
