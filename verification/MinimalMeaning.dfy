/** Which symbols a minimal configuration leaves out, in terms of their declarations. */
module MinimalMeaning {
  import opened Wrappers
  import opened Tristate
  import opened Expressions
  import opened Evaluation
  import opened Semantics
  import opened ValueLaws
  import opened ValueMeaning
  import opened ChoiceMeaning
  import opened RoundTrip

  /** Is 's' what the choice would select for want of a user selection? */
  ghost predicate SelectedByDefault(k: Config, u: Input, rk: Rank, c: nat, s: nat) {
    var d := k.Choice(c);
    exists i: nat, j: nat :: FirstDeciding(k, u, rk, c, i) && FirstVisibleIs(k, u, rk, c, j) &&
      if i < |d.defaults| then d.defaults[i].atom == Sym(s) else j < |d.syms| && d.syms[j] == s
  }

  lemma {:induction false} SomeDecides(k: Config, u: Input, rk: Rank, c: nat) returns (i: nat, j: nat)
    ensures FirstDeciding(k, u, rk, c, i) && FirstVisibleIs(k, u, rk, c, j)
  {
    hide Decides, VisOf;
    var d := k.Choice(c);
    i, j := 0, 0;
    while i < |d.defaults| && !Decides(k, u, rk, c, i)
      invariant i <= |d.defaults| && forall x: nat :: x < i ==> !Decides(k, u, rk, c, x)
    {
      i := i + 1;
    }
    while j < |d.syms| && VisOf(k, u, rk, d.syms[j]) == 0
      invariant j <= |d.syms| && forall x :: 0 <= x < j ==> VisOf(k, u, rk, d.syms[x]) == 0
    {
      j := j + 1;
    }
  }

  lemma DefaultSelectionIs(k: Config, u: Input, rk: Rank, c: nat, s: nat)
    ensures DefaultSelection(k, c, Values(k, u, rk)).v == Some(s) <==> SelectedByDefault(k, u, rk, c, s)
  {
    hide FirstDefault, FirstVisible, FirstDeciding, FirstVisibleIs, Values;
    var d := k.Choice(c);
    var i, j := SomeDecides(k, u, rk, c);
    forall i: nat, j: nat | FirstDeciding(k, u, rk, c, i) && FirstVisibleIs(k, u, rk, c, j)
      ensures DefaultSelection(k, c, Values(k, u, rk)).v == Some(s) <==>
              if i < |d.defaults| then d.defaults[i].atom == Sym(s) else j < |d.syms| && d.syms[j] == s
    {
      FirstDefaultAt(k, u, rk, c, 0, i);
      FirstVisibleAt(k, u, rk, c, 0, j);
      if i < |d.defaults| { DecidingIsSymbol(k, u, rk, c, i); }
    }
  }

  lemma DecidingIsSymbol(k: Config, u: Input, rk: Rank, c: nat, i: nat)
    requires FirstDeciding(k, u, rk, c, i) && i < |k.Choice(c).defaults|
    ensures k.Choice(c).defaults[i].atom.Sym?
  {
  }

  /** With 'i' as its first active default, a written symbol is left out if and only if selects
      leave the user no say, or its value is its default, or it is a bool symbol that is y for
      being selected by default in a choice that must have a selection. */
  lemma LeftOutIs(k: Config, u: Input, rk: Rank, s: nat, i: nat)
    requires FirstDefaultIs(k, u, rk, s, i) && s < |k.syms| && !k.Sym(s).ty.Unknown?
    ensures var d := k.Sym(s);
            var asked := Max(ExprOf(k, u, rk, d.revDep), Max(ExprOf(k, u, rk, d.weakRevDep), DefaultValue(k, u, rk, s, i)));
            var default := if !d.ty.Logic() then DefaultText(k, u, rk, s, i)
                           else if d.choice.Some? || asked == 0 then "n"
                           else if asked == 2 || !CanBeM(k, u, rk, s) then "y" else "m";
            s !in MinKeep(k, u, rk) <==>
              || !Written(k, u, rk, s)
              || (d.choice.None? && VisOf(k, u, rk, s) <= ExprOf(k, u, rk, d.revDep))
              || StrOf(k, u, rk, s) == default
              || (d.choice.Some? && !k.Choice(d.choice.value).optional && SelectedByDefault(k, u, rk, d.choice.value, s)
                  && d.ty.Bool? && TriOf(k, u, rk, s) == 2)
  {
    hide StrDefault, DefaultSelection, SelectedByDefault, FirstDefaultIs, DefaultValue, DefaultText, Written, CanBeM,
      StrOf, VisOf, TriOf;
    MinimalDefaultIs(k, u, rk, s, i);
    if k.Sym(s).choice.Some? { DefaultSelectionIs(k, u, rk, k.Sym(s).choice.value, s); }
  }
}
