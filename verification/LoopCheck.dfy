/** Dependency loop detection by depth-first search over the dependents of each symbol. */
module LoopCheck {
  import opened Wrappers
  import opened Expressions
  import opened Evaluation
  import opened Semantics
  import opened Dependencies
  import opened LoopSearch
  import opened LoopCompleteness
  import opened LoopExactness

  /** A call was made in 'st', and its first 'i' inner calls found nothing and led to 'now'. */
  ghost predicate Pending(g: Graph, st: State, call: Call, i: nat, now: State) {
    && i <= |Calls(g, call)| && st.ColorOf(call.Target()).Unvisited?
    && now.visited.Keys == st.visited.Keys && now.With(Unvisited) < st.With(Unvisited)
    && CheckEach(g, st.Enter(call.Target()), call.Target(), Calls(g, call))
       == CheckEach(g, now, call.Target(), Calls(g, call)[i..])
  }

  lemma Entered(g: Graph, st: State, call: Call)
    requires st.ColorOf(call.Target()).Unvisited?
    ensures Pending(g, st, call, 0, st.Enter(call.Target()))
  {
    hide Calls, CheckEach;
    assert call.Target() in st.With(Unvisited);
    assert Calls(g, call)[0..] == Calls(g, call);
  }

  lemma NextCall(g: Graph, st: State, call: Call, i: nat, now: State)
    requires Pending(g, st, call, i, now) && i < |Calls(g, call)|
    ensures var a := Check(g, now, Calls(g, call)[i]);
            match a.r
            case NoLoop => Pending(g, st, call, i + 1, a.st)
            case Partial(loop) => loop != [] && Check(g, st, call) == Found(FoundDepLoop(loop, call.Target()), a.st)
            case Raised(_) => Check(g, st, call) == a
  {
    hide Calls;
    var calls := Calls(g, call);
    assert calls[i..][0] == calls[i] && calls[i..][1..] == calls[i + 1..];
    var a := Check(g, now, calls[i]);
    assert Shrinks(now, a);
  }

  lemma NoCallLeft(g: Graph, st: State, call: Call, now: State)
    requires Pending(g, st, call, |Calls(g, call)|, now)
    ensures Check(g, st, call) == Found(NoLoop, now.Leave(call.Target()))
  {
    hide Calls;
  }

  /** What is found for an item that has been visited before. */
  lemma VisitedBefore(g: Graph, st: State, call: Call)
    requires !st.ColorOf(call.Target()).Unvisited?
    ensures Check(g, st, call) == Found(if st.ColorOf(call.Target()).Checked? then NoLoop else Partial([call.Target()]), st)
  {
  }

  lemma GraphKeys(g: Graph)
    requires GraphOk(g)
    ensures g.after.Keys == AllItems(g.k)
  {
  }

  lemma DepCall(g: Graph, s: nat, ignoreChoice: bool, i: nat)
    requires GraphOk(g) && SymItem(s) in AllItems(g.k) && i < |g.Deps(SymItem(s))|
    ensures var calls, y := Calls(g, SymCall(s, ignoreChoice)), g.Deps(SymItem(s))[i];
            i < |calls| && y in AllItems(g.k) && calls[i] == if y.SymItem? then SymCall(y.s, false) else ChCall(y.c, None)
  {
  }

  lemma OwnChoiceCall(g: Graph, s: nat, ignoreChoice: bool)
    requires GraphOk(g)
    ensures var calls, n, choice := Calls(g, SymCall(s, ignoreChoice)), |g.Deps(SymItem(s))|, g.k.Sym(s).choice;
            if choice.Some? && !ignoreChoice
            then |calls| == n + 1 && calls[n] == ChCall(choice.value, Some(s)) && ChItem(choice.value) in AllItems(g.k)
            else |calls| == n
  {
  }

  /** The number of calls for the first 'i' symbols of a choice. */
  function Before(syms: seq<nat>, skip: Option<nat>, i: nat): nat
    requires i <= |syms|
  {
    |MemberCalls(syms[..i], skip)|
  }

  lemma {:induction false} MemberCall(syms: seq<nat>, skip: Option<nat>, i: nat)
    requires i < |syms|
    ensures var calls, n := MemberCalls(syms, skip), Before(syms, skip, i);
            if Some(syms[i]) == skip then Before(syms, skip, i + 1) == n <= |calls|
            else n < |calls| && Before(syms, skip, i + 1) == n + 1 && calls[n] == SymCall(syms[i], true)
  {
    if i == 0 {
      assert syms[..1][1..] == [] && syms[..1][0] == syms[0];
    } else {
      MemberCall(syms[1..], skip, i - 1);
      assert syms[..i][1..] == syms[1..][..i - 1] && syms[..i + 1][1..] == syms[1..][..i];
    }
  }

  lemma MemberInGraph(g: Graph, c: nat, i: nat)
    requires GraphOk(g) && i < |g.k.Choice(c).syms|
    ensures SymItem(g.k.Choice(c).syms[i]) in AllItems(g.k)
  {
    assert g.k.Choice(c).syms[i] in g.k.Choice(c).syms;
  }

  class LoopChecker {
    const g: Graph
    var visited: map<Item, Color>
    ghost var order: seq<Item>  // the checked items, in the order in which they were finished

    constructor (g: Graph)
      requires GraphOk(g)
      ensures Valid() && this.g == g && Now() == Start(g.k)
    {
      this.g := g;
      visited := map x | x in AllItems(g.k) :: Unvisited;
      order := [];
    }

    ghost predicate Valid()
      reads this
    {
      GraphOk(g) && visited.Keys == AllItems(g.k)
    }

    ghost function Now(): State
      reads this
    {
      State(visited, order)
    }

    /** _check_dep_loop_sym() */
    method CheckSym(s: nat, ignoreChoice: bool) returns (r: Outcome)
      requires Valid() && SymItem(s) in visited
      modifies this
      ensures Valid() && Found(r, Now()) == Check(g, old(Now()), SymCall(s, ignoreChoice))
      decreases Now().With(Unvisited)
    {
      hide GraphOk, AllItems, Calls, Check, Pending;
      var it := SymItem(s);
      ghost var st, call := Now(), SymCall(s, ignoreChoice);
      if !visited[it].Unvisited? {
        VisitedBefore(g, st, call);
        return if visited[it].Checked? then NoLoop else Partial([it]);
      }
      Entered(g, st, call);
      visited := visited[it := Active];
      GraphKeys(g);
      var deps := g.after[it];
      for i := 0 to |deps|
        invariant Valid() && Pending(g, st, call, i, Now())
      {
        DepCall(g, s, ignoreChoice, i);
        NextCall(g, st, call, i, Now());
        Smaller(st, call, i);
        match deps[i] {
          case ChItem(c) => r := CheckChoice(c, None);
          case SymItem(t) => r := CheckSym(t, false);
        }
        if r.Raised? { return; }
        if r.Partial? { return FoundDepLoop(r.loop, it); }
      }
      var choice := g.k.Sym(s).choice;
      OwnChoiceCall(g, s, ignoreChoice);
      if choice.Some? && !ignoreChoice {
        NextCall(g, st, call, |deps|, Now());
        Smaller(st, call, |deps|);
        r := CheckChoice(choice.value, Some(s));
        if r.Raised? { return; }
        if r.Partial? { return FoundDepLoop(r.loop, it); }
      }
      NoCallLeft(g, st, call, Now());
      visited, order := visited[it := Checked], order + [it];
      r := NoLoop;
    }

    lemma Smaller(st: State, call: Call, i: nat)
      requires Pending(g, st, call, i, Now())
      ensures Now().With(Unvisited) < st.With(Unvisited)
    {
    }

    /** _check_dep_loop_choice() */
    method CheckChoice(c: nat, skip: Option<nat>) returns (r: Outcome)
      requires Valid() && ChItem(c) in visited
      modifies this
      ensures Valid() && Found(r, Now()) == Check(g, old(Now()), ChCall(c, skip))
      decreases Now().With(Unvisited)
    {
      hide GraphOk, AllItems, MemberCalls, Check, Pending, Before;
      var it := ChItem(c);
      ghost var st, call := Now(), ChCall(c, skip);
      if !visited[it].Unvisited? {
        VisitedBefore(g, st, call);
        return if visited[it].Checked? then NoLoop else Partial([it]);
      }
      Entered(g, st, call);
      visited := visited[it := Active];
      var syms := g.k.Choice(c).syms;
      CallsBefore(syms, skip);
      for i := 0 to |syms|
        invariant Valid() && Pending(g, st, call, Before(syms, skip, i), Now())
      {
        MemberCall(syms, skip, i);
        if Some(syms[i]) != skip {
          MemberInGraph(g, c, i);
          NextCall(g, st, call, Before(syms, skip, i), Now());
          Smaller(st, call, Before(syms, skip, i));
          r := CheckSym(syms[i], true);
          if r.Raised? { return; }
          if r.Partial? { return FoundDepLoop(r.loop, it); }
        }
      }
      NoCallLeft(g, st, call, Now());
      visited, order := visited[it := Checked], order + [it];
      r := NoLoop;
    }

    lemma CallsBefore(syms: seq<nat>, skip: Option<nat>)
      ensures Before(syms, skip, 0) == 0 && Before(syms, skip, |syms|) == |MemberCalls(syms, skip)|
    {
      assert syms[..|syms|] == syms;
    }

    lemma NothingActive()
      requires Now() == Start(g.k)
      ensures Now().With(Active) == {}
    {
    }

    /** The check of all defined symbols. What it raises is a dependency loop. If it completes,
        there is a loop if and only if a symbol of a choice leads to an earlier one of it, and
        each such loop runs through a choice. */
    method CheckAll() returns (r: Outcome)
      requires Valid() && Now() == Start(g.k)
      modifies this
      ensures Valid() && Found(r, Now()) == CheckFrom(g, Start(g.k), 0)
      ensures !r.Partial? && (r.Raised? ==> Loop(g, r.loop))
      ensures Paired(g.k) && NoWayBack(g) ==> (r.NoLoop? <==> !exists loop :: Loop(g, loop))
      ensures Paired(g.k) && r.NoLoop? ==> ((exists loop :: Loop(g, loop)) <==> !NoWayBack(g))
      ensures Paired(g.k) && r.NoLoop? ==> forall loop :: Loop(g, loop) ==> exists x: Item :: x in loop && x.ChItem?
    {
      hide Check, Loop, NoWayBack, GraphOk;
      NothingActive();
      CheckFromIsSound(g, Now(), 0);
      if Paired(g.k) {
        CheckIsExact(g);
        if CheckFrom(g, Now(), 0).r.NoLoop? {
          forall loop | Loop(g, loop) ensures exists x: Item :: x in loop && x.ChItem? { MissedLoopsHaveChoices(g, loop); }
        }
      }
      for s := 0 to |g.k.syms|
        invariant Valid() && CheckFrom(g, Start(g.k), 0) == CheckFrom(g, Now(), s)
      {
        r := CheckSym(s, false);
        if !r.NoLoop? { return; }
      }
      r := NoLoop;
    }
  }
}
