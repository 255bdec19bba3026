/** Writing a configuration and loading it again. A full configuration holds every
    symbol that is written out, a minimal one only those that differ from their default;
    for both, this module says exactly when loading restores every symbol value. */
module RoundTrip {
  import opened Wrappers
  import opened Tristate
  import opened Numbers
  import opened Expressions
  import opened Evaluation
  import opened Semantics
  import opened Dependencies
  import opened Inputs
  import opened ConfigText
  import opened Loading
  import opened ValueLaws

  /** The configurations considered: choices are bool or tristate, and there are no 'option env'
      or 'option defconfig_list' symbols. */
  ghost predicate PlainChoices(k: Config) {
    && (forall c :: 0 <= c < |k.choices| ==> k.Choice(c).ty.Logic() && ChoiceSane(k, c))
    && (forall s :: 0 <= s < |k.syms| ==> !k.Sym(s).hidden)
  }

  ghost predicate Setting(k: Config, u: Input, rk: Rank) {
    WellFormed(k) && Ranked(k, rk) && InputOk(k, u) && PlainChoices(k)
  }

  /** Symbol._write_to_conf after str_value has been read. */
  ghost predicate Written(k: Config, u: Input, rk: Rank, s: nat) {
    if k.Sym(s).ty.Logic() then Eval(k, u, rk, SymTri(s)).Writes() else Eval(k, u, rk, SymStr(s)).Writes()
  }

  /** The assignments written for those of the first 'n' symbols that are kept. */
  ghost function Emitted(k: Config, u: Input, rk: Rank, keep: set<nat>, n: nat): seq<Assignment> {
    if n == 0 then [] else
    Emitted(k, u, rk, keep, n - 1) + (if n - 1 in keep then [Assignment(n - 1, StrOf(k, u, rk, n - 1))] else [])
  }

  /** The user value that a written symbol gets when its line is read. */
  ghost function Reread(k: Config, u: Input, rk: Rank, s: nat): UserVal {
    var v := Accepted(k.Sym(s).ty, Text(StrOf(k, u, rk, s)));
    if v.Some? then v.value else NoVal
  }

  /** Is symbol 's' of the choice written with value 't'? */
  ghost predicate IsKept(k: Config, u: Input, rk: Rank, keep: set<nat>, c: nat, s: nat, t: Tri) {
    s in keep && k.Sym(s).choice == Some(c) && Reread(k, u, rk, s) == TriVal(t)
  }

  /** What the written symbols of a choice say about its mode and its selection, unless they
      say different things. Without a y symbol an old selection may survive. */
  ghost predicate ChoiceRestored(k: Config, u: Input, rk: Rank, keep: set<nat>, c: nat, u': Input) {
    && (match u'.Mode(c)
        case None => u'.Sel(c).None? && forall s: nat, t: Tri :: s < |k.syms| && IsKept(k, u, rk, keep, c, s, t) ==>
          t == 0 || (t == 1 && k.Choice(c).ty.Bool?)
        case Some(t) => t != 0 && exists s: nat :: IsKept(k, u, rk, keep, c, s, t))
    && (forall s: nat :: s < |k.syms| && IsKept(k, u, rk, keep, c, s, 2) ==>
          u'.Sel(c).Some? && IsKept(k, u, rk, keep, c, u'.Sel(c).value, 2))
  }

  /** The input after loading what was kept into an instance. */
  ghost predicate Restored(k: Config, u: Input, rk: Rank, keep: set<nat>, u': Input) {
    && InputOk(k, u')
    && (forall s :: 0 <= s < |k.syms| ==> u'.Val(s) == if s in keep then Reread(k, u, rk, s) else NoVal)
    && (forall c :: 0 <= c < |k.choices| ==> ChoiceRestored(k, u, rk, keep, c, u'))
  }

  lemma {:induction false} EmittedVal(k: Config, u: Input, rk: Rank, keep: set<nat>, n: nat, s: nat)
    ensures FileVal(k, Emitted(k, u, rk, keep, n), s)
            == if s < n && s in keep then Reread(k, u, rk, s) else NoVal
  {
    hide Eval, StrOf, Accepted, FileVal;
    if n == 0 {
      NoFileVal(k, s);
    } else {
      EmittedVal(k, u, rk, keep, n - 1, s);
      var before := Emitted(k, u, rk, keep, n - 1);
      if n - 1 in keep {
        FileValSnoc(k, before, Assignment(n - 1, StrOf(k, u, rk, n - 1)), s);
      } else {
        assert before + [] == before;
      }
    }
  }

  lemma NoFileVal(k: Config, s: nat)
    ensures FileVal(k, [], s) == NoVal
  {
  }

  lemma FileValSnoc(k: Config, before: seq<Assignment>, a: Assignment, s: nat)
    ensures var v := Accepted(k.Sym(a.s).ty, Text(a.text));
            FileVal(k, before + [a], s) == if a.s == s && v.Some? then v.value else FileVal(k, before, s)
  {
    hide Accepted;
    assert (before + [a])[..|before|] == before;
  }

  lemma {:induction false} EmittedSel(k: Config, u: Input, rk: Rank, keep: set<nat>, n: nat, c: nat)
    ensures var sel := FileSel(k, Emitted(k, u, rk, keep, n), c);
            if sel.Some? then IsKept(k, u, rk, keep, c, sel.value, 2)
            else forall s: nat :: s < n ==> !IsKept(k, u, rk, keep, c, s, 2)
  {
    hide Eval, StrOf, Accepted;
    if n == 0 {
    } else {
      EmittedSel(k, u, rk, keep, n - 1, c);
      var before := Emitted(k, u, rk, keep, n - 1);
      var all := Emitted(k, u, rk, keep, n);
      if n - 1 in keep { assert all[..|all| - 1] == before; } else { assert all == before; }
    }
  }

  lemma {:induction false} EmittedMode(k: Config, u: Input, rk: Rank, keep: set<nat>, n: nat, c: nat)
    requires Setting(k, u, rk) && c < |k.choices|
    ensures var mode := FileMode(k, Emitted(k, u, rk, keep, n), c);
            if mode.Some? then mode.value != 0 && exists s: nat :: IsKept(k, u, rk, keep, c, s, mode.value)
            else forall s: nat, t: Tri :: s < n && IsKept(k, u, rk, keep, c, s, t) ==>
                   t == 0 || (t == 1 && k.Choice(c).ty.Bool?)
  {
    hide Eval, StrOf, TriOf, Setting, Accepted, AcceptedMode;
    if n == 0 {
    } else {
      EmittedMode(k, u, rk, keep, n - 1, c);
      var before := Emitted(k, u, rk, keep, n - 1);
      var all := Emitted(k, u, rk, keep, n);
      if n - 1 in keep {
        assert all[..|all| - 1] == before;
        if k.Sym(n - 1).choice == Some(c) {
          MemberModes(k, u, rk, c, n - 1);
          assert IsKept(k, u, rk, keep, c, n - 1, TriOf(k, u, rk, n - 1));
        }
      } else {
        assert all == before;
      }
    }
  }

  /** What the line of a choice symbol does to the symbol, and to the mode of the choice. */
  lemma MemberModes(k: Config, u: Input, rk: Rank, c: nat, s: nat)
    requires Setting(k, u, rk) && c < |k.choices| && k.Sym(s).choice == Some(c)
    ensures var text := StrOf(k, u, rk, s);
            var v, t := Accepted(k.Sym(s).ty, Text(text)), AcceptedMode(k.Choice(c).ty, Text(text));
            && k.Sym(s).ty.Logic() && v == Some(TriVal(TriOf(k, u, rk, s)))
            && (text != "n" && t.Some? ==> t.value != 0 && t.value == TriOf(k, u, rk, s))
            && (text == "n" || t.None? ==> TriOf(k, u, rk, s) == 0 || (TriOf(k, u, rk, s) == 1 && k.Choice(c).ty.Bool?))
  {
    hide Eval, Closed, TriOf, StrOf;
    assert s in k.Choice(c).syms && ChoiceSane(k, c);
    LogicStr(k, u, rk, s);
    BoolMember(k, u, rk, c, s);
  }

  /** A bool symbol of a choice is never m. */
  lemma BoolMember(k: Config, u: Input, rk: Rank, c: nat, s: nat)
    requires Ranked(k, rk) && SelsOk(k, u) && ChoiceSane(k, c) && s in k.Choice(c).syms
    ensures k.Sym(s).ty.Bool? ==> VisOf(k, u, rk, s) != 1 && TriOf(k, u, rk, s) != 1
  {
    EvalStep(k, u, rk, SymVis(s));
    MemberValue(k, u, rk, c, s);
  }

  /** Loading, with 'replace', a file whose assignments are the kept ones restores them,
      whatever the instance held before. */
  lemma LoadRestores(k: Config, u: Input, rk: Rank, keep: set<nat>, u0: Input, lines: seq<string>)
    requires Setting(k, u, rk) && InputOk(k, u0)
    requires ParseLines(k, lines) == Emitted(k, u, rk, keep, |k.syms|)
    ensures Restored(k, u, rk, keep, Load(k, u0, lines, true))
  {
    hide Load, Emitted, FileVal, FileSel, FileMode, Reread, InputOk, ChoiceSane, ChoicesOk, Closed, Eval, Ranked;
    var asg := ParseLines(k, lines);
    var u' := Load(k, u0, lines, true);
    LoadIs(k, u0, lines);
    LoadOk(k, u0, lines);
    InputInBounds(k, u0);
    forall s | 0 <= s < |k.syms| ensures u'.Val(s) == if s in keep then Reread(k, u, rk, s) else NoVal {
      EmittedVal(k, u, rk, keep, |k.syms|, s);
    }
    forall c | 0 <= c < |k.choices| ensures ChoiceRestored(k, u, rk, keep, c, u') {
      EmittedSel(k, u, rk, keep, |k.syms|, c);
      EmittedMode(k, u, rk, keep, |k.syms|, c);
      if FileSel(k, asg, c).Some? { SelectionSetsMode(k, asg, c); }
      assert u'.Mode(c) == FileMode(k, asg, c);
      assert u'.Sel(c) == if FileSel(k, asg, c).None? && FileMode(k, asg, c).Some? then u0.Sel(c) else FileSel(k, asg, c);
    }
  }

  // From single steps to all values

  /** With everything it reads as before, the property has its old value under the new
      input. */
  ghost predicate SameStep(k: Config, u: Input, u': Input, rk: Rank, slot: Slot) {
    Step(k, u', slot, Values(k, u, rk)).v == Eval(k, u, rk, slot)
  }

  lemma {:induction false} SameSteps(k: Config, u: Input, u': Input, rk: Rank, n: nat, slot: Slot)
    requires Ranked(k, rk) && SelsOk(k, u) && SelsOk(k, u')
    requires forall r :: RankOf(rk, r) < n ==> SameStep(k, u, u', rk, r)
    requires RankOf(rk, slot) < n
    ensures Eval(k, u', rk, slot) == Eval(k, u, rk, slot)
    decreases rk(slot)
  {
    StepWithOldReads(k, u, u', rk, n, slot);
    assert SameStep(k, u, u', rk, slot);
  }

  /** If everything of lower rank has its old value, a property is one step away. */
  lemma {:induction false} StepWithOldReads(k: Config, u: Input, u': Input, rk: Rank, n: nat, slot: Slot)
    requires Ranked(k, rk) && SelsOk(k, u) && SelsOk(k, u')
    requires forall r :: RankOf(rk, r) < n ==> SameStep(k, u, u', rk, r)
    requires RankOf(rk, slot) <= n
    ensures Eval(k, u', rk, slot) == Step(k, u', slot, Values(k, u, rk)).v
    decreases rk(slot), 0
  {
    var env, env' := Values(k, u, rk), Values(k, u', rk);
    StepReads(k, u', slot, env);
    forall r | r in Step(k, u', slot, env).rd ensures env(r) == env'(r) {
      StepWithOldReads(k, u, u', rk, n, r);
      assert SameStep(k, u, u', rk, r);
    }
    StepAgree(k, u', u', slot, env, env');
    EvalStep(k, u', rk, slot);
  }

  /** The part of a property that users see. */
  function Shown(v: Val): (Tri, string) {
    (v.AsTri(), v.AsStr())
  }

  /** Everything but the lost properties has its old value, given the old values of what it
      reads, and the lost ones do not. */
  ghost predicate OnlyLost(k: Config, u: Input, u': Input, rk: Rank, lost: Slot -> bool) {
    forall r: Slot ::
      if lost(r) then Shown(Step(k, u', r, Values(k, u, rk)).v) != Shown(Eval(k, u, rk, r)) else SameStep(k, u, u', rk, r)
  }

  /** Among the lost properties, one that does not depend on others has a new value. */
  lemma {:induction false} LostChanges(k: Config, u: Input, u': Input, rk: Rank, lost: Slot -> bool, slot: Slot) returns (r: Slot)
    requires Ranked(k, rk) && SelsOk(k, u) && SelsOk(k, u') && OnlyLost(k, u, u', rk, lost) && lost(slot)
    ensures lost(r) && Shown(Eval(k, u', rk, r)) != Shown(Eval(k, u, rk, r))
    decreases RankOf(rk, slot)
  {
    hide Eval, Step, Ranked;
    if lower: Slot :| lost(lower) && RankOf(rk, lower) < RankOf(rk, slot) {
      r := LostChanges(k, u, u', rk, lost, lower);
    } else {
      StepWithOldReads(k, u, u', rk, RankOf(rk, slot), slot);
      r := slot;
    }
  }

  /** If nothing is lost, everything has its old value. */
  lemma NothingChanges(k: Config, u: Input, u': Input, rk: Rank, lost: Slot -> bool, slot: Slot)
    requires Ranked(k, rk) && SelsOk(k, u) && SelsOk(k, u') && OnlyLost(k, u, u', rk, lost) && forall r: Slot :: !lost(r)
    ensures Eval(k, u', rk, slot) == Eval(k, u, rk, slot)
  {
    hide Eval, Step, Ranked;
    SameSteps(k, u, u', rk, RankOf(rk, slot) + 1, slot);
  }

  // Single steps that hold for full and minimal configurations alike

  /** Is a symbol of the choice written as m or y? */
  ghost predicate SomeKept(k: Config, u: Input, rk: Rank, keep: set<nat>, c: nat) {
    exists s :: s in k.Choice(c).syms && s in keep && TriOf(k, u, rk, s) != 0
  }

  /** The mode of a choice is lost if no symbol is written that it could be inferred from, and it is
      not what it would be without a user value. */
  ghost predicate ModeLost(k: Config, u: Input, rk: Rank, keep: set<nat>, c: nat) {
    && c < |k.choices| && !SomeKept(k, u, rk, keep, c)
    && if k.Choice(c).optional then ModeOf(k, u, rk, c) != 0
       else ModeOf(k, u, rk, c) == 2 && ChType(k, c, Values(k, u, rk)).v.Tristate?
  }

  /** Symbols of a choice that are not n are kept, except for a bool symbol that is selected by
      default in a choice that is not optional. */
  ghost predicate KeepsMembers(k: Config, u: Input, rk: Rank, keep: set<nat>, c: nat) {
    forall s :: s in k.Choice(c).syms && TriOf(k, u, rk, s) != 0 ==>
      s in keep || (TriOf(k, u, rk, s) == 2 && !k.Choice(c).optional && DefaultSelection(k, c, Values(k, u, rk)).v == Some(s))
  }

  /** The mode for a given user value, if the properties it reads are as they were. */
  ghost function NewMode(k: Config, u: Input, rk: Rank, c: nat, user: Option<Tri>): Tri {
    ChModeOut(k, user, c, Values(k, u, rk)).v
  }

  /** When the mode can be inferred, and what it is without a user value. */
  lemma ModeAgain(k: Config, u: Input, u': Input, rk: Rank, c: nat)
    requires Ranked(k, rk) && SelsOk(k, u) && c < |k.choices| && k.Choice(c).ty.Logic()
    ensures Step(k, u', ChMode(c), Values(k, u, rk)).v == TriV(NewMode(k, u, rk, c, u'.Mode(c)), false)
    ensures var mode := ModeOf(k, u, rk, c);
            && Eval(k, u, rk, ChMode(c)) == TriV(mode, false)
            && (mode != 0 ==> NewMode(k, u, rk, c, Some(mode)) == mode)
            && NewMode(k, u, rk, c, None) ==
               if mode == 0 || k.Choice(c).optional then 0
               else if mode == 2 && ChType(k, c, Values(k, u, rk)).v.Tristate? then 1 else mode
  {
    EvalStep(k, u, rk, ChMode(c));
    EvalStep(k, u, rk, ChVis(c));
    GetValue(k, u, rk, ChVis(c));
  }

  /** A member that is not n has the value of the mode. */
  lemma MemberHasMode(k: Config, u: Input, rk: Rank, c: nat, s: nat)
    requires Setting(k, u, rk) && c < |k.choices| && s in k.Choice(c).syms
    ensures TriOf(k, u, rk, s) == 0 || TriOf(k, u, rk, s) == ModeOf(k, u, rk, c)
  {
    hide Eval, Step, Ranked, TriOf, VisOf, SelOf, ChoiceSane, Closed, ChoicesOk;
    assert ChoiceSane(k, c);
    ChoiceModes(k, u, rk, c);
  }

  lemma ChoiceModeStep(k: Config, u: Input, rk: Rank, keep: set<nat>, u': Input, c: nat)
    requires Setting(k, u, rk) && Restored(k, u, rk, keep, u') && c < |k.choices|
    ensures if ModeLost(k, u, rk, keep, c)
            then Shown(Step(k, u', ChMode(c), Values(k, u, rk)).v) != Shown(Eval(k, u, rk, ChMode(c)))
            else SameStep(k, u, u', rk, ChMode(c))
  {
    hide ChoiceSane, Eval, Step, Ranked, TriOf, StrOf, Reread, NewMode, Closed, ChoicesOk, ChType;
    ModeAgain(k, u, u', rk, c);
    assert ChoiceRestored(k, u, rk, keep, c, u');
    if u'.Mode(c).Some? {
      var s: nat :| IsKept(k, u, rk, keep, c, s, u'.Mode(c).value);
      KeptMember(k, u, rk, keep, c, s, u'.Mode(c).value);
      MemberHasMode(k, u, rk, c, s);
    } else {
      forall s | s in k.Choice(c).syms && s in keep ensures TriOf(k, u, rk, s) == 0 {
        MemberOf(k, c, s);
        InRangeSym(k, c, s);
        KeptMember(k, u, rk, keep, c, s, TriOf(k, u, rk, s));
        MemberHasMode(k, u, rk, c, s);
        ModeOfBool(k, u, rk, c);
      }
    }
  }

  lemma ModeOfBool(k: Config, u: Input, rk: Rank, c: nat)
    requires Ranked(k, rk) && SelsOk(k, u) && c < |k.choices|
    ensures k.Choice(c).ty.Bool? ==> ModeOf(k, u, rk, c) != 1
  {
    EvalStep(k, u, rk, ChMode(c));
  }

  /** Kept choice symbols are read as they were written. */
  lemma KeptMember(k: Config, u: Input, rk: Rank, keep: set<nat>, c: nat, s: nat, t: Tri)
    requires Setting(k, u, rk) && c < |k.choices| && k.Sym(s).choice == Some(c)
    ensures s in k.Choice(c).syms
    ensures IsKept(k, u, rk, keep, c, s, t) <==> s in keep && TriOf(k, u, rk, s) == t
  {
    hide Eval, StrOf, TriOf, Accepted, AcceptedMode, Setting;
    MemberModes(k, u, rk, c, s);
    assert s in k.Choice(c).syms by { SettingIsOk(k, u, rk); }
  }

  lemma SettingIsOk(k: Config, u: Input, rk: Rank)
    requires Setting(k, u, rk)
    ensures ChoicesOk(k)
  {
    hide ChoicesOk;
  }

  /** A choice symbol is m if and only if it is visible to m and the user wants it. */
  lemma MemberTriSame(k: Config, u: Input, rk: Rank, keep: set<nat>, u': Input, s: nat)
    requires Setting(k, u, rk) && Restored(k, u, rk, keep, u') && s < |k.syms| && k.Sym(s).choice.Some?
    requires KeepsMembers(k, u, rk, keep, k.Sym(s).choice.value)
    ensures SameStep(k, u, u', rk, SymTri(s))
  {
    hide DefaultSelection, StrOf, Reread, ChoiceRestored, HiddenByMode;
    var c := k.Sym(s).choice.value;
    assert c < |k.choices| && s in k.Choice(c).syms && ChoiceSane(k, c);
    KeptMember(k, u, rk, keep, c, s, TriOf(k, u, rk, s));
    MemberValue(k, u, rk, c, s);
    EvalStep(k, u, rk, SymTri(s));
    GetValue(k, u, rk, SymVis(s));
  }

  /** Properties into which the owner's input does not enter. */
  lemma NoInputSame(k: Config, u: Input, u': Input, rk: Rank, slot: Slot)
    requires Ranked(k, rk) && SelsOk(k, u)
    requires slot.SymVis? || slot.SymAsg? || slot.ChVis? || slot.ChAsg?
             || (slot.SymStr? && (k.Sym(slot.s).ty.Logic() || k.Sym(slot.s).ty.Unknown?))
             || (slot.SymTri? && !k.Sym(slot.s).ty.Logic())
    ensures SameStep(k, u, u', rk, slot)
  {
    EvalStep(k, u, rk, slot);
  }

  lemma LogicStr(k: Config, u: Input, rk: Rank, s: nat)
    requires Ranked(k, rk) && SelsOk(k, u) && k.Sym(s).ty.Logic()
    ensures StrOf(k, u, rk, s) == TriToStr(TriOf(k, u, rk, s))
    ensures k.Sym(s).ty.Bool? && TriOf(k, u, rk, s) == 1 ==> k.Sym(s).choice.Some?
  {
    EvalStep(k, u, rk, SymStr(s));
    EvalStep(k, u, rk, SymTri(s));
    GetValue(k, u, rk, SymTri(s));
  }

  /** The selection comes out the same if the y symbol of the choice, if there is one, is
      either kept or what would be selected anyway. */
  lemma SelectionSame(k: Config, u: Input, rk: Rank, keep: set<nat>, u': Input, c: nat)
    requires Setting(k, u, rk) && Restored(k, u, rk, keep, u') && c < |k.choices| && KeepsMembers(k, u, rk, keep, c)
    ensures SameStep(k, u, u', rk, ChSel(c))
  {
    hide DefaultSelection, ChoiceSane, Eval, Ranked, ModeOf, SelOf, TriOf, VisOf, StrOf, Step, Reread;
    assert ChoiceSane(k, c);
    SelStep(k, u, u', rk, c);
    if ModeOf(k, u, rk, c) == 2 {
      ChoiceModes(k, u, rk, c);
      SelectionIsVisible(k, u, rk, c);
      DefaultSelectionFinds(k, u, rk, c);
      RestoredSelection(k, u, rk, keep, u', c);
    } else {
      SelectionIsVisible(k, u, rk, c);
    }
  }

  /** In y mode, the selection is the y symbol if that is kept, and none otherwise. */
  lemma RestoredSelection(k: Config, u: Input, rk: Rank, keep: set<nat>, u': Input, c: nat)
    requires Setting(k, u, rk) && Restored(k, u, rk, keep, u') && c < |k.choices| && ModeOf(k, u, rk, c) == 2
    ensures forall s :: s in k.Choice(c).syms && s in keep && TriOf(k, u, rk, s) == 2 ==> u'.Sel(c).Some?
    ensures u'.Sel(c).Some? ==>
              var s := u'.Sel(c).value; s in k.Choice(c).syms && TriOf(k, u, rk, s) == 2 && VisOf(k, u, rk, s) != 0
  {
    hide DefaultSelection, ChoiceSane, Eval, Ranked, ModeOf, SelOf, TriOf, VisOf, StrOf, Reread;
    assert ChoiceSane(k, c) && ChoiceRestored(k, u, rk, keep, c, u');
    forall s | s in k.Choice(c).syms && s in keep && TriOf(k, u, rk, s) == 2 ensures u'.Sel(c).Some? {
      MemberOf(k, c, s);
      InRangeSym(k, c, s);
      KeptMember(k, u, rk, keep, c, s, 2);
    }
    if u'.Sel(c).Some? {
      var t := u'.Mode(c).value;
      var s: nat :| IsKept(k, u, rk, keep, c, s, t);
      KeptMember(k, u, rk, keep, c, s, t);
      MemberHasMode(k, u, rk, c, s);
      var sel := u'.Sel(c).value;
      InRange(k, s);
      assert IsKept(k, u, rk, keep, c, sel, 2);
      KeptMember(k, u, rk, keep, c, sel, 2);
      MemberValue(k, u, rk, c, sel);
    }
  }

  lemma InRange(k: Config, s: nat)
    requires k.Sym(s).choice.Some?
    ensures s < |k.syms|
  {
  }

  lemma InRangeSym(k: Config, c: nat, s: nat)
    requires Closed(k) && s in k.Choice(c).syms
    ensures s < |k.syms|
  {
  }

  lemma ChoiceInRange(k: Config, s: nat)
    requires Closed(k) && k.Sym(s).choice.Some?
    ensures k.Sym(s).choice.value < |k.choices|
  {
  }

  lemma MemberOf(k: Config, c: nat, s: nat)
    requires PlainChoices(k) && c < |k.choices| && s in k.Choice(c).syms
    ensures k.Sym(s).choice == Some(c) && k.Sym(s).ty.Logic()
  {
    assert ChoiceSane(k, c);
  }

  lemma SelStep(k: Config, u: Input, u': Input, rk: Rank, c: nat)
    requires Ranked(k, rk) && SelsOk(k, u)
    ensures Step(k, u', ChSel(c), Values(k, u, rk)).v == SelV(
              if ModeOf(k, u, rk, c) != 2 then None
              else if u'.Sel(c).Some? && VisOf(k, u, rk, u'.Sel(c).value) != 0 then u'.Sel(c)
              else DefaultSelection(k, c, Values(k, u, rk)).v)
    ensures Eval(k, u, rk, ChSel(c)) == SelV(SelOf(k, u, rk, c))
  {
    EvalStep(k, u, rk, ChSel(c));
    GetValue(k, u, rk, ChMode(c));
    if u'.Sel(c).Some? { GetValue(k, u, rk, SymVis(u'.Sel(c).value)); }
  }

  // Logic symbols outside choices

  /** The value that a non-choice symbol gets from its user value, if the properties it
      reads are as they were. */
  ghost function NewTri(k: Config, u: Input, rk: Rank, s: nat, user: UserVal): Tri {
    PlainTriOut(k, user, s, VisOf(k, u, rk, s), Values(k, u, rk)).v.0
  }

  lemma PlainStep(k: Config, u: Input, u': Input, rk: Rank, s: nat)
    requires Ranked(k, rk) && SelsOk(k, u) && k.Sym(s).ty.Logic() && k.Sym(s).choice.None?
    ensures TriOf(k, u, rk, s) == NewTri(k, u, rk, s, u.Val(s))
    ensures SameStep(k, u, u', rk, SymTri(s)) <==> NewTri(k, u, rk, s, u'.Val(s)) == TriOf(k, u, rk, s)
    ensures Step(k, u', SymTri(s), Values(k, u, rk)).v.AsTri() == NewTri(k, u, rk, s, u'.Val(s))
    ensures VisOf(k, u, rk, s) == 0 ==> SameStep(k, u, u', rk, SymTri(s))
    ensures VisOf(k, u, rk, s) != 0 ==> Written(k, u, rk, s)
  {
    hide ExprOut, DefaultTri, SymType;
    EvalStep(k, u, rk, SymTri(s));
    GetValue(k, u, rk, SymVis(s));
  }

  /** A symbol is lost by a full configuration if its value is y, from a default, while
      its prompt is only visible to m, and nothing raises it to y again. */
  ghost predicate Truncated(k: Config, u: Input, rk: Rank, s: nat) {
    && k.Sym(s).ty.Logic() && k.Sym(s).choice.None?
    && VisOf(k, u, rk, s) == 1 && TriOf(k, u, rk, s) == 2
    && ExprOf(k, u, rk, k.Sym(s).revDep) < 2 && ExprOf(k, u, rk, k.Sym(s).weakRevDep) < 2
  }

  lemma RereadTri(k: Config, u: Input, rk: Rank, s: nat)
    requires Ranked(k, rk) && SelsOk(k, u) && k.Sym(s).ty.Logic() && k.Sym(s).choice.None?
    ensures Reread(k, u, rk, s) == TriVal(TriOf(k, u, rk, s))
  {
    hide Eval, Ranked;
    LogicStr(k, u, rk, s);
  }

  /** What becomes of the value of a visible symbol that is written and read again. */
  lemma KeptTri(k: Config, u: Input, rk: Rank, s: nat)
    requires Ranked(k, rk) && InputOk(k, u) && k.Sym(s).ty.Logic() && k.Sym(s).choice.None?
    requires VisOf(k, u, rk, s) != 0
    ensures var again := NewTri(k, u, rk, s, TriVal(TriOf(k, u, rk, s)));
            again == if Truncated(k, u, rk, s) then 1 else TriOf(k, u, rk, s)
  {
    hide ExprOut, NoUserTri, Eval, Values, Ranked, VisOf;
    PlainStep(k, u, u, rk, s);
    var env := Values(k, u, rk);
    if VisOf(k, u, rk, s) == 1 { VisNeedsTristate(k, u, rk, s); }
  }

  // String, int and hex symbols

  ghost function NewStr(k: Config, u: Input, rk: Rank, s: nat, user: UserVal): (string, bool) {
    var vis, env := VisOf(k, u, rk, s), Values(k, u, rk);
    if k.Sym(s).ty.String? then TextStrOut(k, user, s, vis, env).v else NumStrOut(k, user, s, vis, env).v
  }

  lemma TextStep(k: Config, u: Input, u': Input, rk: Rank, s: nat)
    requires Ranked(k, rk) && SelsOk(k, u) && !k.Sym(s).hidden
    requires k.Sym(s).ty.String? || k.Sym(s).ty.Int? || k.Sym(s).ty.Hex?
    ensures Eval(k, u, rk, SymStr(s)) == StrV(NewStr(k, u, rk, s, u.Val(s)).0, NewStr(k, u, rk, s, u.Val(s)).1)
    ensures SameStep(k, u, u', rk, SymStr(s)) <==> NewStr(k, u, rk, s, u'.Val(s)) == NewStr(k, u, rk, s, u.Val(s))
    ensures StrOf(k, u, rk, s) == NewStr(k, u, rk, s, u.Val(s)).0
    ensures VisOf(k, u, rk, s) != 0 ==> NewStr(k, u, rk, s, u.Val(s)).1 && NewStr(k, u, rk, s, u'.Val(s)).1
                                        && Written(k, u, rk, s)
    ensures Step(k, u', SymStr(s), Values(k, u, rk)).v.AsStr() == NewStr(k, u, rk, s, u'.Val(s)).0
    ensures VisOf(k, u, rk, s) == 0 ==> SameStep(k, u, u', rk, SymStr(s))
  {
    hide DefaultStr, ActiveRange, Clamped, ParseInt;
    EvalStep(k, u, rk, SymStr(s));
    GetValue(k, u, rk, SymVis(s));
  }

  /** A visible string, int or hex symbol keeps its value when that is written and read:
      either it is valid and becomes the user value, or it came from the defaults, and
      comes from there again. */
  lemma KeptStr(k: Config, u: Input, rk: Rank, s: nat)
    requires Ranked(k, rk) && InputOk(k, u) && !k.Sym(s).hidden
    requires k.Sym(s).ty.String? || k.Sym(s).ty.Int? || k.Sym(s).ty.Hex?
    requires VisOf(k, u, rk, s) != 0
    ensures NewStr(k, u, rk, s, Reread(k, u, rk, s)) == NewStr(k, u, rk, s, u.Val(s))
  {
    hide DefaultStr, ActiveRange, Eval, Ranked, VisOf, StrOf, Clamped, NumOrZero;
    var d := k.Sym(s);
    TextStep(k, u, u, rk, s);
    assert Storable(d.ty, u.Val(s));
    if !d.ty.String? {
      var env := Values(k, u, rk);
      var range := ActiveRange(k, s, env).v;
      var def := DefaultStr(k, s, env).v;
      var raw := if def.Some? then def.value else "";
      if range.Some? && range.value.0 <= range.value.1 { ClampedInRange(raw, d.ty.Base(), range.value); }
      assert range.None? ==> Clamped(raw, d.ty.Base(), range) == raw by { Unclamped(raw, d.ty.Base()); }
    }
  }

  lemma Unclamped(raw: string, base: nat)
    ensures Clamped(raw, base, None) == raw
  {
  }

  /** A symbol whose value equals its default needs no line. */
  lemma DefaultedStr(k: Config, u: Input, rk: Rank, s: nat)
    requires Ranked(k, rk) && InputOk(k, u) && !k.Sym(s).hidden
    requires k.Sym(s).ty.String? || k.Sym(s).ty.Int? || k.Sym(s).ty.Hex?
    requires StrOf(k, u, rk, s) == StrDefault(k, s, Values(k, u, rk))
    requires VisOf(k, u, rk, s) != 0
    ensures NewStr(k, u, rk, s, NoVal) == NewStr(k, u, rk, s, u.Val(s))
  {
    hide DefaultStr, ActiveRange, Eval, Ranked, VisOf, StrOf, NumOrZero, IntText;
    TextStep(k, u, u, rk, s);
  }

  // Full configurations

  ghost function FullKeep(k: Config, u: Input, rk: Rank): set<nat> {
    set s | 0 <= s < |k.syms| && Written(k, u, rk, s)
  }

  ghost predicate FullLost(k: Config, u: Input, rk: Rank, slot: Slot) {
    match slot
    case SymTri(s) => Truncated(k, u, rk, s)
    case ChMode(c) => ModeLost(k, u, rk, FullKeep(k, u, rk), c)
    case _ => false
  }

  lemma MemberWritten(k: Config, u: Input, rk: Rank, s: nat)
    requires Setting(k, u, rk) && s < |k.syms| && k.Sym(s).choice.Some? && TriOf(k, u, rk, s) != 0
    ensures Written(k, u, rk, s)
  {
    EvalStep(k, u, rk, SymTri(s));
  }

  lemma FullKeepsMembers(k: Config, u: Input, rk: Rank, c: nat)
    requires Setting(k, u, rk) && c < |k.choices|
    ensures KeepsMembers(k, u, rk, FullKeep(k, u, rk), c)
  {
    hide Eval, Ranked, Written, TriOf, Closed, ChoicesOk, DefaultSelection, ChoiceSane;
    forall s | s in k.Choice(c).syms && TriOf(k, u, rk, s) != 0 ensures s in FullKeep(k, u, rk) {
      InRangeSym(k, c, s);
      MemberOf(k, c, s);
      MemberWritten(k, u, rk, s);
    }
  }

  lemma FullStep(k: Config, u: Input, u': Input, rk: Rank, slot: Slot)
    requires Setting(k, u, rk) && Restored(k, u, rk, FullKeep(k, u, rk), u')
    ensures if FullLost(k, u, rk, slot) then Shown(Step(k, u', slot, Values(k, u, rk)).v) != Shown(Eval(k, u, rk, slot))
            else SameStep(k, u, u', rk, slot)
  {
    hide Eval, Ranked, Written, Reread, Closed, ChoicesOk, Truncated, Step, KeepsMembers, Restored, ModeLost, SameStep;
    match slot {
      case SymVis(s) => NoInputSame(k, u, u', rk, slot);
      case SymAsg(s) => NoInputSame(k, u, u', rk, slot);
      case ChVis(c) => NoInputSame(k, u, u', rk, slot);
      case ChAsg(c) => NoInputSame(k, u, u', rk, slot);
      case ChMode(c) =>
        KeptModeStep(k, u, rk, FullKeep(k, u, rk), u', c);
      case ChSel(c) =>
        if c < |k.choices| { FullKeepsMembers(k, u, rk, c); }
        KeptSelStep(k, u, rk, FullKeep(k, u, rk), u', c);
      case SymTri(s) => FullTriStep(k, u, u', rk, s);
      case SymStr(s) => FullStrStep(k, u, u', rk, s);
    }
  }

  lemma OutsideSame(k: Config, u: Input, u': Input, rk: Rank, slot: Slot)
    requires Ranked(k, rk) && InputOk(k, u) && InputOk(k, u')
    requires match slot.Owner() case SymItem(s) => s >= |k.syms| case ChItem(c) => c >= |k.choices|
    ensures SameStep(k, u, u', rk, slot)
  {
    StepAgree(k, u, u', slot, Values(k, u, rk), Values(k, u, rk));
    EvalStep(k, u, rk, slot);
  }

  lemma KeptModeStep(k: Config, u: Input, rk: Rank, keep: set<nat>, u': Input, c: nat)
    requires Setting(k, u, rk) && Restored(k, u, rk, keep, u')
    ensures if ModeLost(k, u, rk, keep, c)
            then Shown(Step(k, u', ChMode(c), Values(k, u, rk)).v) != Shown(Eval(k, u, rk, ChMode(c)))
            else SameStep(k, u, u', rk, ChMode(c))
  {
    hide Eval, Ranked, Step, Closed, ChoicesOk, KeepsMembers, VisOf, ChoiceSane, SameStep;
    if c < |k.choices| {
      ChoiceModeStep(k, u, rk, keep, u', c);
    } else {
      OutsideSame(k, u, u', rk, ChMode(c));
    }
  }

  lemma KeptSelStep(k: Config, u: Input, rk: Rank, keep: set<nat>, u': Input, c: nat)
    requires Setting(k, u, rk) && Restored(k, u, rk, keep, u') && (c < |k.choices| ==> KeepsMembers(k, u, rk, keep, c))
    ensures SameStep(k, u, u', rk, ChSel(c))
  {
    hide Eval, Ranked, Step, Closed, ChoicesOk, KeepsMembers, ChoiceSane, SameStep;
    if c < |k.choices| {
      SelectionSame(k, u, rk, keep, u', c);
    } else {
      OutsideSame(k, u, u', rk, ChSel(c));
    }
  }

  lemma FullTriStep(k: Config, u: Input, u': Input, rk: Rank, s: nat)
    requires Setting(k, u, rk) && Restored(k, u, rk, FullKeep(k, u, rk), u')
    ensures if Truncated(k, u, rk, s) then Shown(Step(k, u', SymTri(s), Values(k, u, rk)).v) != Shown(Eval(k, u, rk, SymTri(s)))
            else SameStep(k, u, u', rk, SymTri(s))
  {
    hide Eval, Ranked, Written, Reread, Step, Closed, ChoicesOk, SameStep;
    if s >= |k.syms| { OutsideSame(k, u, u', rk, SymTri(s)); }
    else if !k.Sym(s).ty.Logic() { NoInputSame(k, u, u', rk, SymTri(s)); }
    else if k.Sym(s).choice.Some? {
      ChoiceInRange(k, s);
      FullKeepsMembers(k, u, rk, k.Sym(s).choice.value);
      MemberTriSame(k, u, rk, FullKeep(k, u, rk), u', s);
    }
    else {
      PlainStep(k, u, u', rk, s);
      if VisOf(k, u, rk, s) != 0 {
        RereadTri(k, u, rk, s);
        KeptTri(k, u, rk, s);
      }
    }
  }

  lemma FullStrStep(k: Config, u: Input, u': Input, rk: Rank, s: nat)
    requires Setting(k, u, rk) && Restored(k, u, rk, FullKeep(k, u, rk), u')
    ensures SameStep(k, u, u', rk, SymStr(s))
  {
    hide Eval, Ranked, Written, Reread, StrOf, VisOf, Closed, ChoicesOk;
    if s >= |k.syms| { OutsideSame(k, u, u', rk, SymStr(s)); }
    else if k.Sym(s).ty.Logic() || k.Sym(s).ty.Unknown? { NoInputSame(k, u, u', rk, SymStr(s)); }
    else {
      TextStep(k, u, u', rk, s);
      if VisOf(k, u, rk, s) != 0 { KeptStr(k, u, rk, s); }
    }
  }

  ghost predicate SameValues(k: Config, u: Input, u': Input, rk: Rank) {
    forall s :: 0 <= s < |k.syms| ==>
      TriOf(k, u', rk, s) == TriOf(k, u, rk, s) && StrOf(k, u', rk, s) == StrOf(k, u, rk, s)
  }

  ghost predicate SameModes(k: Config, u: Input, u': Input, rk: Rank) {
    forall c :: 0 <= c < |k.choices| ==> ModeOf(k, u', rk, c) == ModeOf(k, u, rk, c)
  }

  ghost predicate ModesSurvive(k: Config, u: Input, rk: Rank, keep: set<nat>) {
    forall c :: 0 <= c < |k.choices| ==> !ModeLost(k, u, rk, keep, c)
  }

  lemma ShownPart(k: Config, u: Input, rk: Rank, r: Slot)
    requires Ranked(k, rk) && SelsOk(k, u)
    ensures r.SymTri? || r.ChMode? ==> Eval(k, u, rk, r).AsStr() == ""
    ensures r.SymStr? ==> Eval(k, u, rk, r).AsTri() == 0
  {
    EvalStep(k, u, rk, r);
  }

  /** From properties to symbols and choices. */
  lemma LostOrSame(k: Config, u: Input, u': Input, rk: Rank, lost: Slot -> bool)
    requires Ranked(k, rk) && SelsOk(k, u) && SelsOk(k, u') && OnlyLost(k, u, u', rk, lost)
    requires forall r: Slot :: lost(r) ==>
               (r.SymTri? && r.s < |k.syms|) || (r.SymStr? && r.s < |k.syms|) || (r.ChMode? && r.c < |k.choices|)
    ensures SameValues(k, u, u', rk) && SameModes(k, u, u', rk) <==> forall r: Slot :: !lost(r)
    ensures (forall c: nat :: !lost(ChMode(c))) ==> (SameValues(k, u, u', rk) <==> forall r: Slot :: !lost(r))
  {
    hide Eval, Step, Ranked, OnlyLost;
    if slot: Slot :| lost(slot) {
      var r := LostChanges(k, u, u', rk, lost, slot);
      ShownPart(k, u, rk, r);
      ShownPart(k, u', rk, r);
      if r.SymTri? { assert TriOf(k, u', rk, r.s) != TriOf(k, u, rk, r.s); }
      else if r.SymStr? { assert StrOf(k, u', rk, r.s) != StrOf(k, u, rk, r.s); }
      else { assert ModeOf(k, u', rk, r.c) != ModeOf(k, u, rk, r.c); }
    } else {
      forall slot ensures Eval(k, u', rk, slot) == Eval(k, u, rk, slot) { NothingChanges(k, u, u', rk, lost, slot); }
    }
  }

  /** A full configuration restores every symbol value and mode, whatever the instance it is
      loaded into held before, if and only if no symbol is truncated by it, and no choice loses
      its mode. In the latter case the values alone are restored if and only if no symbol is
      truncated. */
  lemma FullConfigRoundTrip(k: Config, u: Input, rk: Rank, u0: Input, lines: seq<string>)
    requires Setting(k, u, rk) && InputOk(k, u0)
    requires ParseLines(k, lines) == Emitted(k, u, rk, FullKeep(k, u, rk), |k.syms|)
    ensures var u' := Load(k, u0, lines, true);
            var kept := forall s :: 0 <= s < |k.syms| ==> !Truncated(k, u, rk, s);
            && (SameValues(k, u, u', rk) && SameModes(k, u, u', rk) <==> kept && ModesSurvive(k, u, rk, FullKeep(k, u, rk)))
            && (ModesSurvive(k, u, rk, FullKeep(k, u, rk)) ==> (SameValues(k, u, u', rk) <==> kept))
  {
    hide Eval, Ranked, Written, Reread, Closed, ChoicesOk, TriOf, VisOf, StrOf, PlainChoices, Load, Emitted, SameValues,
      SameModes, ModeOf, AnyVisible, Step;
    var u' := Load(k, u0, lines, true);
    LoadRestores(k, u, rk, FullKeep(k, u, rk), u0, lines);
    var lost := (r: Slot) => FullLost(k, u, rk, r);
    forall r: Slot { FullStep(k, u, u', rk, r); }
    LostOrSame(k, u, u', rk, lost);
    assert forall s: nat :: lost(SymTri(s)) == Truncated(k, u, rk, s);
    assert forall c: nat :: lost(ChMode(c)) == ModeLost(k, u, rk, FullKeep(k, u, rk), c);
  }

  // Minimal configurations

  /** What menu finalization establishes (see Collection.PromptsAreGuarded): prompts hold only where
      the direct dependencies do. */
  ghost predicate Guarded(k: Config) {
    forall s: nat, env: Env ::
      PromptsOut(k, k.Sym(s).prompts, |k.Sym(s).prompts|, env).v <= ExprOut(k, k.Sym(s).directDep, env).v
  }

  /** Does write_min_config() write a line for the symbol? */
  ghost predicate MinKept(k: Config, u: Input, rk: Rank, s: nat) {
    var d, env := k.Sym(s), Values(k, u, rk);
    && !(d.choice.None? && VisOf(k, u, rk, s) <= ExprOf(k, u, rk, d.revDep))
    && StrOf(k, u, rk, s) != StrDefault(k, s, env)
    && !(d.choice.Some? && !k.Choice(d.choice.value).optional
         && DefaultSelection(k, d.choice.value, env).v == Some(s) && d.ty.Bool? && TriOf(k, u, rk, s) == 2)
    && Written(k, u, rk, s)
  }

  ghost function MinKeep(k: Config, u: Input, rk: Rank): set<nat> {
    set s | 0 <= s < |k.syms| && MinKept(k, u, rk, s)
  }

  /** A bool or tristate symbol is lost by a minimal configuration if it can only be m, because
      it is visible to m and selected to m, the user has made it m, and its default is y: it is
      taken for unchangeable, and becomes y for want of a user value. */
  ghost predicate Omitted(k: Config, u: Input, rk: Rank, s: nat) {
    && k.Sym(s).ty.Logic() && k.Sym(s).choice.None?
    && VisOf(k, u, rk, s) == 1 && ExprOf(k, u, rk, k.Sym(s).revDep) == 1
    && TriOf(k, u, rk, s) == 1 && StrDefault(k, s, Values(k, u, rk)) == "y"
  }

  /** A string, int or hex symbol is lost if it is selected as far as it is visible, which does
      not fix its value, and the value is not what it would be without the user value. */
  ghost predicate OmittedText(k: Config, u: Input, rk: Rank, s: nat) {
    && (k.Sym(s).ty.String? || k.Sym(s).ty.Int? || k.Sym(s).ty.Hex?)
    && 0 < VisOf(k, u, rk, s) <= ExprOf(k, u, rk, k.Sym(s).revDep)
    && StrOf(k, u, rk, s) != NewStr(k, u, rk, s, NoVal).0
  }

  ghost predicate MinLost(k: Config, u: Input, rk: Rank, slot: Slot) {
    match slot
    case SymTri(s) => Omitted(k, u, rk, s)
    case SymStr(s) => OmittedText(k, u, rk, s)
    case ChMode(c) => ModeLost(k, u, rk, MinKeep(k, u, rk), c)
    case _ => false
  }

  lemma VisibleIsGuarded(k: Config, u: Input, rk: Rank, s: nat)
    requires Ranked(k, rk) && SelsOk(k, u) && Guarded(k) && VisOf(k, u, rk, s) != 0
    ensures ExprOf(k, u, rk, k.Sym(s).directDep) != 0
  {
    EvalStep(k, u, rk, SymVis(s));
  }

  /** The value of a visible symbol without a user value, against _str_default(). */
  lemma DefaultedTri(k: Config, u: Input, rk: Rank, s: nat)
    requires Ranked(k, rk) && InputOk(k, u) && Guarded(k)
    requires k.Sym(s).ty.Logic() && k.Sym(s).choice.None? && VisOf(k, u, rk, s) != 0
    ensures NewTri(k, u, rk, s, NoVal) ==
            if StrDefault(k, s, Values(k, u, rk)) == "y" then 2
            else if StrDefault(k, s, Values(k, u, rk)) == "m" then 1 else 0
  {
    hide Eval, Values, Ranked, VisOf, ExprOut, DefaultTri, SymType;
    VisibleIsGuarded(k, u, rk, s);
  }

  /** Whether a minimal configuration restores the value of a visible symbol, given that
      it restores what the symbol depends on. */
  lemma MinTri(k: Config, u: Input, rk: Rank, s: nat)
    requires Ranked(k, rk) && InputOk(k, u) && Guarded(k)
    requires k.Sym(s).ty.Logic() && k.Sym(s).choice.None? && VisOf(k, u, rk, s) != 0
    ensures var user := if MinKept(k, u, rk, s) then TriVal(TriOf(k, u, rk, s)) else NoVal;
            NewTri(k, u, rk, s, user) == if Omitted(k, u, rk, s) then 2 else TriOf(k, u, rk, s)
  {
    hide Eval, Values, Ranked, VisOf, ExprOut, NoUserTri, Written, DefaultSelection, Guarded, StrDefault, TriOf,
      SymType, StrOf;
    var rev := ExprOf(k, u, rk, k.Sym(s).revDep);
    var str := StrDefault(k, s, Values(k, u, rk));
    PlainStep(k, u, u, rk, s);
    DefaultedTri(k, u, rk, s);
    LogicStr(k, u, rk, s);
    KeptTri(k, u, rk, s);
    SelectedAtLeast(k, u, rk, s);
    if VisOf(k, u, rk, s) == 1 { VisNeedsTristate(k, u, rk, s); }
  }

  /** Selects are a lower bound on the value. */
  lemma SelectedAtLeast(k: Config, u: Input, rk: Rank, s: nat)
    requires Ranked(k, rk) && InputOk(k, u)
    requires k.Sym(s).ty.Logic() && k.Sym(s).choice.None?
    ensures ExprOf(k, u, rk, k.Sym(s).revDep) <= TriOf(k, u, rk, s)
  {
    hide Eval, Values, Ranked, VisOf, ExprOut, NoUserTri, SymType;
    PlainStep(k, u, u, rk, s);
  }

  lemma MinTriStep(k: Config, u: Input, u': Input, rk: Rank, s: nat)
    requires Setting(k, u, rk) && Guarded(k) && Restored(k, u, rk, MinKeep(k, u, rk), u')
    ensures if Omitted(k, u, rk, s) then Shown(Step(k, u', SymTri(s), Values(k, u, rk)).v) != Shown(Eval(k, u, rk, SymTri(s)))
            else SameStep(k, u, u', rk, SymTri(s))
  {
    hide Eval, Ranked, MinKept, Reread, Step, Closed, ChoicesOk, Guarded, SameStep, StrDefault;
    if s >= |k.syms| { OutsideSame(k, u, u', rk, SymTri(s)); }
    else if !k.Sym(s).ty.Logic() { NoInputSame(k, u, u', rk, SymTri(s)); }
    else if k.Sym(s).choice.Some? {
      ChoiceInRange(k, s);
      MinKeepsMembers(k, u, rk, k.Sym(s).choice.value);
      MemberTriSame(k, u, rk, MinKeep(k, u, rk), u', s);
    }
    else {
      PlainStep(k, u, u', rk, s);
      if VisOf(k, u, rk, s) != 0 {
        RereadTri(k, u, rk, s);
        MinTri(k, u, rk, s);
      }
    }
  }

  lemma MinStrStep(k: Config, u: Input, u': Input, rk: Rank, s: nat)
    requires Setting(k, u, rk) && Restored(k, u, rk, MinKeep(k, u, rk), u')
    ensures if OmittedText(k, u, rk, s)
            then Shown(Step(k, u', SymStr(s), Values(k, u, rk)).v) != Shown(Eval(k, u, rk, SymStr(s)))
            else SameStep(k, u, u', rk, SymStr(s))
  {
    hide Eval, Ranked, Written, Reread, StrOf, VisOf, Closed, ChoicesOk, StrDefault, Step, SameStep, ExprOut;
    if s >= |k.syms| { OutsideSame(k, u, u', rk, SymStr(s)); }
    else if k.Sym(s).ty.Logic() || k.Sym(s).ty.Unknown? { NoInputSame(k, u, u', rk, SymStr(s)); }
    else {
      TextStep(k, u, u', rk, s);
      if VisOf(k, u, rk, s) != 0 {
        KeptStr(k, u, rk, s);
        if StrOf(k, u, rk, s) == StrDefault(k, s, Values(k, u, rk)) { DefaultedStr(k, u, rk, s); }
        NotInChoice(k, s);
      }
    }
  }

  lemma NotInChoice(k: Config, s: nat)
    requires WellFormed(k) && PlainChoices(k) && !k.Sym(s).ty.Logic()
    ensures k.Sym(s).choice.None?
  {
    if k.Sym(s).choice.Some? { MemberOf(k, k.Sym(s).choice.value, s); }
  }

  lemma MinKeepsMembers(k: Config, u: Input, rk: Rank, c: nat)
    requires Setting(k, u, rk) && c < |k.choices|
    ensures KeepsMembers(k, u, rk, MinKeep(k, u, rk), c)
  {
    hide Eval, Ranked, Written, TriOf, VisOf, StrOf, Closed, ChoicesOk, DefaultSelection, ChoiceSane;
    forall s | s in k.Choice(c).syms && TriOf(k, u, rk, s) != 0
      ensures s in MinKeep(k, u, rk)
              || (TriOf(k, u, rk, s) == 2 && !k.Choice(c).optional && DefaultSelection(k, c, Values(k, u, rk)).v == Some(s))
    {
      InRangeSym(k, c, s);
      MemberOf(k, c, s);
      MemberWritten(k, u, rk, s);
      LogicStr(k, u, rk, s);
    }
  }

  lemma MinStep(k: Config, u: Input, u': Input, rk: Rank, slot: Slot)
    requires Setting(k, u, rk) && Guarded(k) && Restored(k, u, rk, MinKeep(k, u, rk), u')
    ensures if MinLost(k, u, rk, slot) then Shown(Step(k, u', slot, Values(k, u, rk)).v) != Shown(Eval(k, u, rk, slot))
            else SameStep(k, u, u', rk, slot)
  {
    hide Eval, Ranked, MinKept, Reread, Closed, ChoicesOk, Omitted, OmittedText, Guarded, Step, KeepsMembers, Restored, ModeLost,
      SameStep;
    match slot {
      case SymVis(s) => NoInputSame(k, u, u', rk, slot);
      case SymAsg(s) => NoInputSame(k, u, u', rk, slot);
      case ChVis(c) => NoInputSame(k, u, u', rk, slot);
      case ChAsg(c) => NoInputSame(k, u, u', rk, slot);
      case ChMode(c) =>
        KeptModeStep(k, u, rk, MinKeep(k, u, rk), u', c);
      case ChSel(c) =>
        if c < |k.choices| { MinKeepsMembers(k, u, rk, c); }
        KeptSelStep(k, u, rk, MinKeep(k, u, rk), u', c);
      case SymTri(s) => MinTriStep(k, u, u', rk, s);
      case SymStr(s) => MinStrStep(k, u, u', rk, s);
    }
  }

  /** A minimal configuration restores every symbol value and mode, whatever the instance it is
      loaded into held before, if and only if no symbol is wrongly omitted from it, and no choice
      loses its mode. In the latter case the values alone are restored if and only if no symbol
      is wrongly omitted. */
  lemma MinConfigRoundTrip(k: Config, u: Input, rk: Rank, u0: Input, lines: seq<string>)
    requires Setting(k, u, rk) && Guarded(k) && InputOk(k, u0)
    requires ParseLines(k, lines) == Emitted(k, u, rk, MinKeep(k, u, rk), |k.syms|)
    ensures var u' := Load(k, u0, lines, true);
            var kept := forall s :: 0 <= s < |k.syms| ==> !Omitted(k, u, rk, s) && !OmittedText(k, u, rk, s);
            && (SameValues(k, u, u', rk) && SameModes(k, u, u', rk) <==> kept && ModesSurvive(k, u, rk, MinKeep(k, u, rk)))
            && (ModesSurvive(k, u, rk, MinKeep(k, u, rk)) ==> (SameValues(k, u, u', rk) <==> kept))
  {
    hide Eval, Ranked, MinKept, Reread, Closed, ChoicesOk, TriOf, VisOf, StrOf, PlainChoices, Load, Emitted, Guarded,
      SameValues, SameModes, ModeOf, AnyVisible, Step, StrDefault, NewStr;
    var u' := Load(k, u0, lines, true);
    LoadRestores(k, u, rk, MinKeep(k, u, rk), u0, lines);
    var lost := (r: Slot) => MinLost(k, u, rk, r);
    forall r: Slot { MinStep(k, u, u', rk, r); }
    LostOrSame(k, u, u', rk, lost);
    assert forall s: nat :: lost(SymTri(s)) == Omitted(k, u, rk, s) && lost(SymStr(s)) == OmittedText(k, u, rk, s);
    assert forall c: nat :: lost(ChMode(c)) == ModeLost(k, u, rk, MinKeep(k, u, rk), c);
  }

  // Files

  /** The lines written for those of the first 'n' symbols that are kept. */
  ghost function ConfigLines(k: Config, u: Input, rk: Rank, keep: set<nat>, n: nat): seq<string> {
    if n == 0 then [] else
    ConfigLines(k, u, rk, keep, n - 1)
    + (if n - 1 in keep then [ConfigString(k.Sym(n - 1), StrOf(k, u, rk, n - 1))] else [])
  }

  /** The values can be represented in a file of lines: there are no newlines, and no
      blanks at the end of numbers, which reading strips. */
  ghost predicate Representable(k: Config, u: Input, rk: Rank) {
    forall s :: 0 <= s < |k.syms| ==>
      var x := StrOf(k, u, rk, s);
      '\n' !in x && (k.Sym(s).ty.Int? || k.Sym(s).ty.Hex? ==> x == "" || !IsSpace(x[|x| - 1]))
  }

  /** The lines of a file that are assignments; the others are comments and blank lines. */
  function Significant(k: Config, lines: seq<string>): seq<string> {
    if lines == [] then [] else
    var last := lines[|lines| - 1];
    Significant(k, lines[..|lines| - 1]) + (if ParseLine(k, last).Some? then [last] else [])
  }

  lemma {:induction false} OnlySignificantParsed(k: Config, lines: seq<string>)
    ensures ParseLines(k, Significant(k, lines)) == ParseLines(k, lines)
  {
    hide ParseLine;
    if lines != [] {
      var before := lines[..|lines| - 1];
      OnlySignificantParsed(k, before);
      if ParseLine(k, lines[|lines| - 1]).Some? {
        assert Significant(k, lines)[..|Significant(k, before)|] == Significant(k, before);
      } else {
        assert Significant(k, lines) == Significant(k, before);
      }
    }
  }

  /** The line written for a symbol is read as the assignment of its value. */
  lemma ConfigStringParsed(k: Config, s: nat, val: string)
    requires NamesOk(k.syms) && s < |k.syms| && !k.Sym(s).ty.Unknown?
    requires k.Sym(s).ty.Logic() ==> val == "n" || val == "y" || (val == "m" && k.Sym(s).ty.Tristate?)
    requires k.Sym(s).ty.Int? || k.Sym(s).ty.Hex? ==> val == "" || !IsSpace(val[|val| - 1])
    ensures ParseLine(k, ConfigString(k.Sym(s), val)) == Some(Assignment(s, val))
  {
    hide ReadLine, ConfStringMatch, Unescape, Escape, AssignLine, UnsetLine, FindSym;
    var d := k.Sym(s);
    FindSymIs(k.syms, s);
    StringLiteralRoundTrip(val);
    if d.ty.String? {
      AssignLineRead(d.name, "\"" + Escape(val) + "\"");
    } else if d.ty.Logic() && val == "n" {
      UnsetLineRead(d.name);
    } else {
      if d.ty.Logic() { assert val[..1] == val; }
      AssignLineRead(d.name, val);
    }
  }

  lemma {:induction false} ConfigLinesParsed(k: Config, u: Input, rk: Rank, keep: set<nat>, n: nat)
    requires Setting(k, u, rk) && NamesOk(k.syms) && Representable(k, u, rk) && n <= |k.syms|
    requires forall s :: s in keep ==> !k.Sym(s).ty.Unknown?
    ensures ParseLines(k, ConfigLines(k, u, rk, keep, n)) == Emitted(k, u, rk, keep, n)
  {
    hide ParseLine, ConfigString, StrOf, TriOf, Eval, NamesOk;
    if n > 0 {
      ConfigLinesParsed(k, u, rk, keep, n - 1);
      var before := ConfigLines(k, u, rk, keep, n - 1);
      if n - 1 in keep {
        if k.Sym(n - 1).ty.Logic() { WrittenText(k, u, rk, n - 1); }
        ConfigStringParsed(k, n - 1, StrOf(k, u, rk, n - 1));
        assert ConfigLines(k, u, rk, keep, n)[..|before|] == before;
      } else {
        assert ConfigLines(k, u, rk, keep, n) == before;
      }
    }
  }

  lemma WrittenText(k: Config, u: Input, rk: Rank, s: nat)
    requires Setting(k, u, rk) && s < |k.syms| && k.Sym(s).ty.Logic()
    ensures var x := StrOf(k, u, rk, s); x == "n" || x == "y" || (x == "m" && k.Sym(s).ty.Tristate?)
  {
    hide Eval;
    LogicStr(k, u, rk, s);
    if k.Sym(s).choice.Some? {
      var c := k.Sym(s).choice.value;
      assert s in k.Choice(c).syms && ChoiceSane(k, c);
      BoolMember(k, u, rk, c, s);
    }
  }

  lemma UnknownNotWritten(k: Config, u: Input, rk: Rank, s: nat)
    requires Ranked(k, rk) && SelsOk(k, u) && k.Sym(s).ty.Unknown?
    ensures !Written(k, u, rk, s)
  {
    EvalStep(k, u, rk, SymStr(s));
  }

  /** Saving with write_config() and loading again. */
  lemma SaveAndLoad(k: Config, u: Input, rk: Rank, u0: Input, lines: seq<string>)
    requires Setting(k, u, rk) && NamesOk(k.syms) && Representable(k, u, rk) && InputOk(k, u0)
    requires Significant(k, lines) == ConfigLines(k, u, rk, FullKeep(k, u, rk), |k.syms|)
    ensures var u' := Load(k, u0, lines, true);
            var kept := forall s :: 0 <= s < |k.syms| ==> !Truncated(k, u, rk, s);
            && (SameValues(k, u, u', rk) && SameModes(k, u, u', rk) <==> kept && ModesSurvive(k, u, rk, FullKeep(k, u, rk)))
            && (ModesSurvive(k, u, rk, FullKeep(k, u, rk)) ==> (SameValues(k, u, u', rk) <==> kept))
  {
    hide Eval, Written, Load, Emitted, Truncated, SameValues, SameModes, ModesSurvive, ParseLines, NamesOk;
    forall s | s in FullKeep(k, u, rk) ensures !k.Sym(s).ty.Unknown? {
      if k.Sym(s).ty.Unknown? { UnknownNotWritten(k, u, rk, s); }
    }
    ConfigLinesParsed(k, u, rk, FullKeep(k, u, rk), |k.syms|);
    OnlySignificantParsed(k, lines);
    FullConfigRoundTrip(k, u, rk, u0, lines);
  }

  /** Saving with write_min_config() and loading again. */
  lemma MinSaveAndLoad(k: Config, u: Input, rk: Rank, u0: Input, lines: seq<string>)
    requires Setting(k, u, rk) && Guarded(k) && NamesOk(k.syms) && Representable(k, u, rk) && InputOk(k, u0)
    requires Significant(k, lines) == ConfigLines(k, u, rk, MinKeep(k, u, rk), |k.syms|)
    ensures var u' := Load(k, u0, lines, true);
            var kept := forall s :: 0 <= s < |k.syms| ==> !Omitted(k, u, rk, s) && !OmittedText(k, u, rk, s);
            && (SameValues(k, u, u', rk) && SameModes(k, u, u', rk) <==> kept && ModesSurvive(k, u, rk, MinKeep(k, u, rk)))
            && (ModesSurvive(k, u, rk, MinKeep(k, u, rk)) ==> (SameValues(k, u, u', rk) <==> kept))
  {
    hide Eval, Written, Load, Emitted, Omitted, OmittedText, SameValues, SameModes, ModesSurvive, ParseLines, NamesOk, Guarded,
      StrDefault, VisOf;
    forall s | s in MinKeep(k, u, rk) ensures !k.Sym(s).ty.Unknown? {
      if k.Sym(s).ty.Unknown? { UnknownNotWritten(k, u, rk, s); }
    }
    ConfigLinesParsed(k, u, rk, MinKeep(k, u, rk), |k.syms|);
    OnlySignificantParsed(k, lines);
    MinConfigRoundTrip(k, u, rk, u0, lines);
  }
}
