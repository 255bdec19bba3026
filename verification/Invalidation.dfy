/** Why it is safe that invalidation stops at items without a cached visibility. */
module Invalidation {
  import opened Wrappers
  import opened Tristate
  import opened Expressions
  import opened Evaluation
  import opened Semantics
  import opened Dependencies

  /** Properties that are the same whatever the user does, and are computed without
      looking at anything else. */
  predicate Fixed(k: Config, slot: Slot) {
    match slot
    case SymTri(s) => !k.Sym(s).ty.Logic()
    case SymStr(s) => k.Sym(s).ty.Unknown?
    case SymAsg(s) => !k.Sym(s).ty.Logic()
    case _ => false
  }

  /** Membership, under a name that serves as the trigger of the closure property. */
  predicate Live(slot: Slot, live: set<Slot>) {
    slot in live
  }

  /** The visibility of a symbol that is never visible: it is n, whatever is read for it. */
  predicate Hidden(k: Config, slot: Slot) {
    slot.SymVis? && NeverVisible(k, slot.s)
  }

  /** 'live' is closed under what was really read, unless it cannot matter, and an item with
      live properties has a cached visibility. */
  ghost predicate Closure(k: Config, u: Input, rk: Rank, live: set<Slot>, vis: set<Item>) {
    forall slot {:trigger Live(slot, live)} :: Live(slot, live) ==>
      && slot.Owner() in AllItems(k)
      && (Hidden(k, slot) || Step(k, u, slot, Values(k, u, rk)).rd <= live)
      && (Fixed(k, slot) || slot.Owner() in vis)
  }

  function Surviving(live: set<Slot>, gone: set<Item>): set<Slot> {
    set slot | slot in live && slot.Owner() !in gone
  }

  /** What a round of invalidation leaves behind: nothing that depends on an
      invalidated item still has a cached visibility. */
  ghost predicate Invalidated(k: Config, gone: set<Item>, vis: set<Item>, vis': set<Item>) {
    && vis' == vis - gone
    && (forall x, y :: x in gone && y in AllItems(k) && DependsOn(k, y, x) ==> y !in vis')
    && (forall x :: x in gone && IsModules(k, x) ==> AllItems(k) <= gone)
  }

  ghost predicate SameInput(u: Input, u': Input, it: Item) {
    match it
    case SymItem(s) => u.Val(s) == u'.Val(s)
    case ChItem(c) => u.Mode(c) == u'.Mode(c) && u.Sel(c) == u'.Sel(c)
  }

  predicate Invisible(k: Config, it: Item) {
    it.SymItem? && NeverVisible(k, it.s)
  }

  lemma {:induction false} PromptsAreN(k: Config, ps: seq<Expr>, n: nat, env: Env)
    requires n <= |ps| && forall e :: e in ps ==> e == N
    ensures PromptsOut(k, ps, n, env).v == 0
  {
    if n == 0 {
    } else {
      PromptsAreN(k, ps, n - 1, env);
      assert ps[n - 1] in ps;
    }
  }

  lemma NeverVisibleIsN(k: Config, u: Input, rk: Rank, s: nat)
    requires Ranked(k, rk) && SelsOk(k, u) && NeverVisible(k, s)
    ensures Eval(k, u, rk, SymVis(s)) == TriV(0, false)
  {
    EvalStep(k, u, rk, SymVis(s));
    PromptsAreN(k, k.Sym(s).prompts, |k.Sym(s).prompts|, Values(k, u, rk));
  }

  /** The choice is not asked for the other properties of its symbols that are never visible. */
  lemma UnseenReads(k: Config, u: Input, rk: Rank, slot: Slot)
    requires Ranked(k, rk) && SelsOk(k, u) && (slot.SymTri? || slot.SymAsg?)
    requires NeverVisible(k, slot.s) && k.Sym(slot.s).choice.Some?
    ensures Step(k, u, slot, Values(k, u, rk)).rd <= {SymVis(slot.s)}
  {
    NeverVisibleIsN(k, u, rk, slot.s);
    GetValue(k, u, rk, SymVis(slot.s));
  }

  /** User values have no effect on symbols that are never visible. */
  lemma InvisibleIgnoresUser(k: Config, u: Input, u': Input, rk: Rank, slot: Slot)
    requires Ranked(k, rk) && SelsOk(k, u) && Invisible(k, slot.Owner())
    ensures Step(k, u, slot, Values(k, u, rk)) == Step(k, u', slot, Values(k, u, rk))
  {
    NeverVisibleIsN(k, u, rk, slot.s);
  }

  /** A property that survives invalidation has the value that evaluation from scratch
      gives under the new input, and reads only properties that survive as well, unless it
      cannot matter. */
  lemma {:induction false} SurvivorsAreValid(
      k: Config, u: Input, u': Input, rk: Rank,
      live: set<Slot>, vis: set<Item>, vis': set<Item>, gone: set<Item>, slot: Slot)
    requires WellFormed(k) && Ranked(k, rk) && SelsOk(k, u) && SelsOk(k, u')
    requires Closure(k, u, rk, live, vis) && Invalidated(k, gone, vis, vis')
    requires forall it :: it in vis' ==> SameInput(u, u', it) || Invisible(k, it)
    requires slot in Surviving(live, gone)
    ensures Eval(k, u', rk, slot) == Eval(k, u, rk, slot)
    ensures Hidden(k, slot) || Step(k, u', slot, Values(k, u', rk)).rd <= Surviving(live, gone)
    decreases rk(slot), 1
  {
    if Hidden(k, slot) {
      NeverVisibleIsN(k, u, rk, slot.s);
      NeverVisibleIsN(k, u', rk, slot.s);
    } else {
      ReadsSurvive(k, u, u', rk, live, vis, vis', gone, slot);
    }
  }

  lemma {:induction false} ReadsSurvive(
      k: Config, u: Input, u': Input, rk: Rank,
      live: set<Slot>, vis: set<Item>, vis': set<Item>, gone: set<Item>, slot: Slot)
    requires WellFormed(k) && Ranked(k, rk) && SelsOk(k, u) && SelsOk(k, u')
    requires Closure(k, u, rk, live, vis) && Invalidated(k, gone, vis, vis')
    requires forall it :: it in vis' ==> SameInput(u, u', it) || Invisible(k, it)
    requires slot in Surviving(live, gone) && !Hidden(k, slot)
    ensures Eval(k, u', rk, slot) == Eval(k, u, rk, slot)
    ensures Step(k, u', slot, Values(k, u', rk)).rd <= Surviving(live, gone)
    decreases rk(slot), 0
  {
    var env, env' := Values(k, u, rk), Values(k, u', rk);
    var o := Step(k, u, slot, env);
    StepReads(k, u, slot, env);
    assert Live(slot, live);
    if (slot.SymTri? || slot.SymAsg?) && NeverVisible(k, slot.s) && k.Sym(slot.s).choice.Some? { UnseenReads(k, u, rk, slot); }
    forall r | r in o.rd ensures r in Surviving(live, gone) && env(r) == env'(r) {
      ReadsAreReached(k, slot, r);
      assert !Fixed(k, slot);
      SurvivorsAreValid(k, u, u', rk, live, vis, vis', gone, r);
    }
    assert Step(k, u', slot, env) == o by {
      if !Fixed(k, slot) && Invisible(k, slot.Owner()) { InvisibleIgnoresUser(k, u, u', rk, slot); }
    }
    StepAgree(k, u', u', slot, env, env');
    EvalStep(k, u, rk, slot);
    EvalStep(k, u', rk, slot);
  }

  /** The closure property carries over to the surviving properties. */
  lemma ClosureSurvives(
      k: Config, u: Input, u': Input, rk: Rank,
      live: set<Slot>, vis: set<Item>, vis': set<Item>, gone: set<Item>)
    requires WellFormed(k) && Ranked(k, rk) && SelsOk(k, u) && SelsOk(k, u')
    requires Closure(k, u, rk, live, vis) && Invalidated(k, gone, vis, vis')
    requires forall it :: it in vis' ==> SameInput(u, u', it) || Invisible(k, it)
    ensures Closure(k, u', rk, Surviving(live, gone), vis')
    ensures forall slot :: slot in Surviving(live, gone) ==> Eval(k, u', rk, slot) == Eval(k, u, rk, slot)
  {
    forall slot | Live(slot, Surviving(live, gone))
      ensures slot.Owner() in AllItems(k) && (Fixed(k, slot) || slot.Owner() in vis')
      ensures Hidden(k, slot) || Step(k, u', slot, Values(k, u', rk)).rd <= Surviving(live, gone)
    {
      assert Live(slot, live);
      SurvivorsAreValid(k, u, u', rk, live, vis, vis', gone, slot);
    }
    forall slot | slot in Surviving(live, gone) ensures Eval(k, u', rk, slot) == Eval(k, u, rk, slot) {
      SurvivorsAreValid(k, u, u', rk, live, vis, vis', gone, slot);
    }
  }
}
