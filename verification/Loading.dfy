/** Loading a .config file: what _load_config() does to the user's input. */
module Loading {
  import opened Wrappers
  import opened Tristate
  import opened Expressions
  import opened Evaluation
  import opened Semantics
  import opened Dependencies
  import opened Inputs
  import opened ConfigText

  /** An assignment: a symbol and the text that set_value() is called with. */
  datatype Assignment = Assignment(s: nat, text: string)

  /** Only the first character matters for bool and tristate symbols. */
  predicate LogicText(ty: Ty, val: string) {
    val != "" && (val[0] == 'y' || val[0] == 'n' || (ty.Tristate? && val[0] == 'm'))
  }

  /** The assignment that a line stands for, if it is one and is not ignored. */
  function ParseLine(k: Config, raw: string): Option<Assignment> {
    match ReadLine(raw)
    case Assign(name, val) =>
      var s := FindSym(k.syms, name);
      if s.None? then None else
      var ty := k.syms[s.value].ty;
      if ty.Logic() then
        if LogicText(ty, val) then Some(Assignment(s.value, val[..1])) else None
      else if ty.String? then
        var body := ConfStringMatch(val);
        if body.None? then None else Some(Assignment(s.value, Unescape(body.value)))
      else Some(Assignment(s.value, val))
    case Unset(name) =>
      var s := FindSym(k.syms, name);
      if s.None? || !k.syms[s.value].ty.Logic() then None else Some(Assignment(s.value, "n"))
    case Other => None
  }

  /** All assignments of a file. */
  function ParseLines(k: Config, lines: seq<string>): seq<Assignment> {
    if lines == [] then [] else
    var a := ParseLine(k, lines[|lines| - 1]);
    ParseLines(k, lines[..|lines| - 1]) + (if a.Some? then [a.value] else [])
  }

  /** An assignment other than n to a choice symbol sets the mode of the choice. */
  predicate SetsMode(k: Config, a: Assignment) {
    k.Sym(a.s).choice.Some? && k.Sym(a.s).ty.Logic() && a.text != "n"
  }

  function LoadOne(k: Config, u: Input, a: Assignment): Input {
    var u1 := if SetsMode(k, a) then SetMode(k, u, k.Sym(a.s).choice.value, Text(a.text)) else u;
    SetSym(k, u1, a.s, Text(a.text))
  }

  function LoadAll(k: Config, u: Input, asg: seq<Assignment>): Input {
    if asg == [] then u else LoadOne(k, LoadAll(k, u, asg[..|asg| - 1]), asg[|asg| - 1])
  }

  /** The _was_set flags are cleared before a replacing load. */
  function ClearFlags(u: Input): Input {
    ClearFirst(u, |u.symSet|, |u.chSet|)
  }

  /** What was not set is unset after a replacing load; here, among the first 'n' symbols
      and the first 'm' choices. */
  function UnsetFirst(u: Input, n: nat, m: nat): Input {
    u.(vals := seq(|u.vals|, s requires 0 <= s < |u.vals| =>
               if s < n && s < |u.symSet| && !u.symSet[s] then NoVal else u.vals[s]),
       modes := seq(|u.modes|, c requires 0 <= c < |u.modes| =>
               if c < m && c < |u.chSet| && !u.chSet[c] then None else u.modes[c]),
       sels := seq(|u.sels|, c requires 0 <= c < |u.sels| =>
               if c < m && c < |u.chSet| && !u.chSet[c] then None else u.sels[c]))
  }

  function UnsetRest(u: Input): Input {
    UnsetFirst(u, |u.vals|, |u.modes|)
  }

  /** Clears the flags of the first 'n' symbols and the first 'm' choices. */
  function ClearFirst(u: Input, n: nat, m: nat): Input {
    u.(symSet := seq(|u.symSet|, s requires 0 <= s < |u.symSet| => s >= n && u.symSet[s]),
       chSet := seq(|u.chSet|, c requires 0 <= c < |u.chSet| => c >= m && u.chSet[c]))
  }

  function Load(k: Config, u: Input, lines: seq<string>, replace: bool): Input {
    var asg := ParseLines(k, lines);
    if replace then UnsetRest(LoadAll(k, ClearFlags(u), asg)) else LoadAll(k, u, asg)
  }

  // What a file says, by itself

  /** The user value that the file gives to symbol 's': the last valid one. */
  function FileVal(k: Config, asg: seq<Assignment>, s: nat): UserVal {
    if asg == [] then NoVal else
    var a := asg[|asg| - 1];
    var v := Accepted(k.Sym(a.s).ty, Text(a.text));
    if a.s == s && v.Some? then v.value else FileVal(k, asg[..|asg| - 1], s)
  }

  /** The mode it gives to choice 'c'. */
  function FileMode(k: Config, asg: seq<Assignment>, c: nat): Option<Tri> {
    if asg == [] then None else
    var a := asg[|asg| - 1];
    var t := AcceptedMode(k.Choice(c).ty, Text(a.text));
    if SetsMode(k, a) && k.Sym(a.s).choice == Some(c) && t.Some? then t else FileMode(k, asg[..|asg| - 1], c)
  }

  /** The symbol it selects in choice 'c': the last one set to y. */
  function FileSel(k: Config, asg: seq<Assignment>, c: nat): Option<nat> {
    if asg == [] then None else
    var a := asg[|asg| - 1];
    if k.Sym(a.s).choice == Some(c) && Accepted(k.Sym(a.s).ty, Text(a.text)) == Some(TriVal(2))
    then Some(a.s) else FileSel(k, asg[..|asg| - 1], c)
  }

  predicate InBounds(k: Config, u: Input, asg: seq<Assignment>) {
    && |u.vals| == |u.symSet| == |k.syms| && |u.modes| == |u.sels| == |u.chSet| == |k.choices|
    && forall a :: a in asg ==> a.s < |k.syms|
  }

  lemma {:induction false} ParseLinesInBounds(k: Config, lines: seq<string>)
    ensures forall a :: a in ParseLines(k, lines) ==> a.s < |k.syms|
  {
    if lines == [] {
    } else {
      ParseLinesInBounds(k, lines[..|lines| - 1]);
    }
  }

  /** The input after loading, component by component: what the file says where it says
      something, and what was there before elsewhere. */
  lemma {:induction false} LoadAllIs(k: Config, u: Input, asg: seq<Assignment>)
    requires Closed(k) && InBounds(k, u, asg)
    ensures InBounds(k, LoadAll(k, u, asg), asg)
    ensures var u' := LoadAll(k, u, asg);
            && (forall s :: 0 <= s < |k.syms| ==>
                  u'.vals[s] == (if FileVal(k, asg, s).NoVal? then u.vals[s] else FileVal(k, asg, s))
                  && u'.symSet[s] == (u.symSet[s] || !FileVal(k, asg, s).NoVal?))
            && (forall c :: 0 <= c < |k.choices| ==>
                  u'.modes[c] == (if FileMode(k, asg, c).None? then u.modes[c] else FileMode(k, asg, c))
                  && u'.sels[c] == (if FileSel(k, asg, c).None? then u.sels[c] else FileSel(k, asg, c))
                  && u'.chSet[c] == (u.chSet[c] || FileMode(k, asg, c).Some? || FileSel(k, asg, c).Some?))
  {
    if asg == [] {
    } else {
      hide Accepted, AcceptedMode, LoadOne, AllItems, ItemExprs, Mentions;
      LoadAllIs(k, u, asg[..|asg| - 1]);
      LoadOneIs(k, LoadAll(k, u, asg[..|asg| - 1]), asg[|asg| - 1]);
    }
  }

  lemma LoadOneIs(k: Config, u: Input, a: Assignment)
    requires Closed(k) && InBounds(k, u, [a])
    ensures var u' := LoadOne(k, u, a);
            var v := Accepted(k.Sym(a.s).ty, Text(a.text));
            && InBounds(k, u', [a])
            && (forall s :: 0 <= s < |k.syms| ==>
                  u'.vals[s] == (if s == a.s && v.Some? then v.value else u.vals[s])
                  && u'.symSet[s] == (u.symSet[s] || (s == a.s && v.Some?)))
            && (forall c :: 0 <= c < |k.choices| ==>
                  var t := AcceptedMode(k.Choice(c).ty, Text(a.text));
                  var mine := k.Sym(a.s).choice == Some(c);
                  && u'.modes[c] == (if SetsMode(k, a) && mine && t.Some? then t else u.modes[c])
                  && u'.sels[c] == (if mine && v == Some(TriVal(2)) then Some(a.s) else u.sels[c])
                  && u'.chSet[c] == (u.chSet[c] || (SetsMode(k, a) && mine && t.Some?)
                                     || (mine && v == Some(TriVal(2)))))
  {
    hide AllItems, ItemExprs, Mentions, Accepted, AcceptedMode;
    assert a in [a];
  }

  /** A replacing load, component by component. */
  lemma LoadIs(k: Config, u: Input, lines: seq<string>)
    requires Closed(k) && InputOk(k, u)
    ensures var u' := Load(k, u, lines, true);
            var asg := ParseLines(k, lines);
            && InBounds(k, u', asg)
            && (forall s :: 0 <= s < |k.syms| ==> u'.vals[s] == FileVal(k, asg, s))
            && (forall c :: 0 <= c < |k.choices| ==>
                  var mode, sel := FileMode(k, asg, c), FileSel(k, asg, c);
                  && u'.modes[c] == (if mode.None? && sel.Some? then u.modes[c] else mode)
                  && u'.sels[c] == (if sel.None? && mode.Some? then u.sels[c] else sel))
  {
    hide InputOk, AllItems, ItemExprs, Mentions, FileVal, FileMode, FileSel, LoadAll, Closed;
    ParseLinesInBounds(k, lines);
    assert InBounds(k, ClearFlags(u), ParseLines(k, lines)) by { InputInBounds(k, u); }
    LoadAllIs(k, ClearFlags(u), ParseLines(k, lines));
  }

  lemma InputInBounds(k: Config, u: Input)
    requires InputOk(k, u)
    ensures InBounds(k, u, [])
  {
  }

  // Does a replacing load forget the history of the instance?

  /** The file says both or neither of the mode and the selection of each choice. */
  predicate Decides(k: Config, asg: seq<Assignment>) {
    forall c :: 0 <= c < |k.choices| ==> FileMode(k, asg, c).Some? == FileSel(k, asg, c).Some?
  }

  predicate SameUserInput(u: Input, u': Input) {
    u.vals == u'.vals && u.modes == u'.modes && u.sels == u'.sels
  }

  lemma {:induction false} FileModeHasMember(k: Config, asg: seq<Assignment>, c: nat)
    requires ChoicesOk(k) && FileMode(k, asg, c).Some?
    ensures k.Choice(c).syms != []
  {
    var a := asg[|asg| - 1];
    if !(SetsMode(k, a) && k.Sym(a.s).choice == Some(c)) { FileModeHasMember(k, asg[..|asg| - 1], c); }
    else if AcceptedMode(k.Choice(c).ty, Text(a.text)).None? { FileModeHasMember(k, asg[..|asg| - 1], c); }
  }

  /** An instance on which nothing but the mode and selection of one choice was set. */
  function Touched(k: Config, c: nat): Input
    requires c < |k.choices|
  {
    var u := NoInput(k);
    u.(modes := u.modes[c := Some(0)],
       sels := u.sels[c := if k.Choice(c).syms == [] then None else Some(k.Choice(c).syms[0])])
  }

  lemma TouchedOk(k: Config, c: nat)
    requires c < |k.choices|
    ensures InputOk(k, NoInput(k)) && InputOk(k, Touched(k, c))
  {
    assert forall s: nat :: NoInput(k).Val(s) == NoVal && Touched(k, c).Val(s) == NoVal;
    assert forall b: nat :: NoInput(k).Sel(b) == None;
    assert forall b: nat :: b != c ==> Touched(k, c).Sel(b) == None;
  }

  /** A replacing load makes the user's input depend on nothing but the file, exactly if
      the file decides every choice. Otherwise (say, when only m is assigned within a
      tristate choice) an old user selection or mode survives. */
  lemma LoadForgets(k: Config, lines: seq<string>)
    requires WellFormed(k)
    ensures (forall u, u' :: InputOk(k, u) && InputOk(k, u') ==>
               SameUserInput(Load(k, u, lines, true), Load(k, u', lines, true)))
            <==> Decides(k, ParseLines(k, lines))
  {
    hide InputOk, Load, FileVal, FileMode, FileSel, ParseLines;
    var asg := ParseLines(k, lines);
    if Decides(k, asg) {
      forall u, u' | InputOk(k, u) && InputOk(k, u')
        ensures SameUserInput(Load(k, u, lines, true), Load(k, u', lines, true))
      {
        LoadIs(k, u, lines);
        LoadIs(k, u', lines);
      }
    } else {
      var c :| 0 <= c < |k.choices| && FileMode(k, asg, c).Some? != FileSel(k, asg, c).Some?;
      TouchedOk(k, c);
      LoadIs(k, NoInput(k), lines);
      LoadIs(k, Touched(k, c), lines);
      if FileMode(k, asg, c).Some? { FileModeHasMember(k, asg, c); }
      assert !SameUserInput(Load(k, NoInput(k), lines, true), Load(k, Touched(k, c), lines, true));
    }
  }

  /** Values depend on user values, modes and selections, not on the flags. */
  lemma {:induction false} EvalIgnoresFlags(k: Config, u: Input, u': Input, rk: Rank, slot: Slot)
    requires Ranked(k, rk) && SelsOk(k, u) && SelsOk(k, u') && SameUserInput(u, u')
    ensures Eval(k, u, rk, slot) == Eval(k, u', rk, slot)
    decreases rk(slot)
  {
    var env, env' := Values(k, u, rk), Values(k, u', rk);
    StepReads(k, u, slot, env);
    forall r | r in Step(k, u, slot, env).rd ensures env(r) == env'(r) {
      EvalIgnoresFlags(k, u, u', rk, r);
    }
    StepAgree(k, u, u', slot, env, env');
    EvalStep(k, u, rk, slot);
    EvalStep(k, u', rk, slot);
  }

  lemma LoadOk(k: Config, u: Input, lines: seq<string>)
    requires WellFormed(k) && InputOk(k, u)
    ensures InputOk(k, Load(k, u, lines, true))
  {
    var asg := ParseLines(k, lines);
    LoadIs(k, u, lines);
    var u' := Load(k, u, lines, true);
    forall c: nat | u'.Sel(c).Some? ensures u'.Sel(c).value in k.Choice(c).syms {
      if FileSel(k, asg, c).Some? { FileSelIsMember(k, asg, c); } else { assert u'.Sel(c) == u.Sel(c); }
    }
    forall s: nat ensures Storable(k.Sym(s).ty, u'.Val(s)) {
      if s < |k.syms| { FileValStorable(k, asg, s); }
    }
  }

  lemma {:induction false} FileSelIsMember(k: Config, asg: seq<Assignment>, c: nat)
    requires ChoicesOk(k) && FileSel(k, asg, c).Some?
    ensures FileSel(k, asg, c).value in k.Choice(c).syms
  {
    var a := asg[|asg| - 1];
    if k.Sym(a.s).choice != Some(c) || Accepted(k.Sym(a.s).ty, Text(a.text)) != Some(TriVal(2)) {
      FileSelIsMember(k, asg[..|asg| - 1], c);
    }
  }

  lemma {:induction false} FileValStorable(k: Config, asg: seq<Assignment>, s: nat)
    ensures Storable(k.Sym(s).ty, FileVal(k, asg, s))
  {
    if asg == [] {
    } else {
      FileValStorable(k, asg[..|asg| - 1], s);
    }
  }

  /** After a deciding file is loaded, the instance is as if the file had been loaded
      into a fresh one: every property has the same value. */
  lemma LoadedLikeFresh(k: Config, u: Input, rk: Rank, lines: seq<string>, slot: Slot)
    requires WellFormed(k) && Ranked(k, rk) && InputOk(k, u) && Decides(k, ParseLines(k, lines))
    ensures Eval(k, Load(k, u, lines, true), rk, slot) == Eval(k, Load(k, NoInput(k), lines, true), rk, slot)
  {
    hide Load, ParseLines, FileVal, FileMode, FileSel, Eval, ChoicesOk, Closed;
    NoInputOk(k);
    LoadIs(k, u, lines);
    LoadIs(k, NoInput(k), lines);
    LoadOk(k, u, lines);
    LoadOk(k, NoInput(k), lines);
    EvalIgnoresFlags(k, Load(k, u, lines, true), Load(k, NoInput(k), lines, true), rk, slot);
  }

  lemma NoInputOk(k: Config)
    ensures InputOk(k, NoInput(k))
  {
    assert forall s: nat :: NoInput(k).Val(s) == NoVal;
    assert forall b: nat :: NoInput(k).Sel(b) == None;
  }

  /** If all choices are bool, every file decides all of them. */
  lemma {:induction false} BoolChoicesDecide(k: Config, asg: seq<Assignment>)
    requires forall c :: 0 <= c < |k.choices| ==> k.Choice(c).ty.Bool?
    ensures Decides(k, asg)
  {
    if asg == [] {
    } else {
      BoolChoicesDecide(k, asg[..|asg| - 1]);
      var a := asg[|asg| - 1];
      forall c | 0 <= c < |k.choices| ensures FileMode(k, asg, c).Some? == FileSel(k, asg, c).Some? {
        assert k.Choice(c).ty.Bool?;
      }
    }
  }

  /** A file that selects a symbol also sets the mode of the choice. */
  lemma {:induction false} SelectionSetsMode(k: Config, asg: seq<Assignment>, c: nat)
    requires k.Choice(c).ty.Logic() && FileSel(k, asg, c).Some?
    ensures FileMode(k, asg, c).Some?
  {
    var a := asg[|asg| - 1];
    if !(k.Sym(a.s).choice == Some(c) && Accepted(k.Sym(a.s).ty, Text(a.text)) == Some(TriVal(2))) {
      SelectionSetsMode(k, asg[..|asg| - 1], c);
    }
  }
}
