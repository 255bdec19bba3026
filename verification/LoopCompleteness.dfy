/** What it means that the loop search completes: everything has been visited after its
    dependents, and a loop can only remain if some symbol of a choice leads to an earlier one
    of the same choice. */
module LoopCompleteness {
  import opened Wrappers
  import opened Expressions
  import opened Evaluation
  import opened Semantics
  import opened Dependencies
  import opened LoopSearch

  /** Only items of the configuration are reachable. */
  ghost predicate GraphOk(g: Graph) {
    Closed(g.k) && g.after.Keys == AllItems(g.k) && forall x, y :: x in g.after && y in g.after[x] ==> y in AllItems(g.k)
  }

  /** The symbols of a choice are those that refer to it: no symbol is in two choices. */
  ghost predicate Paired(k: Config) {
    forall c: nat, s: nat {:trigger s in k.Choice(c).syms} :: k.Sym(s).choice == Some(c) <==> s in k.Choice(c).syms
  }

  /** There is a path from 'x' to 'y' that does not use choice 'c'. */
  ghost predicate Leads(g: Graph, c: nat, x: Item, y: Item) {
    exists p :: Path(g, p) && |p| > 1 && p[|p| - 1] == x && p[0] == y && ChItem(c) !in p
  }

  /** A symbol of choice 'c' leads to an earlier one. The search misses the loop back through
      the choice, because it has done with the earlier symbol when it comes to the later one. */
  ghost predicate LeadsBack(g: Graph, c: nat) {
    var syms := g.k.Choice(c).syms;
    exists i, j :: 0 <= i < j < |syms| && Leads(g, c, SymItem(syms[j]), SymItem(syms[i]))
  }

  // What is known about the items in the order in which they are finished

  /** What is known of choice 'c' when it is finished after the items 'before': all dependents of
      its symbols are among them, nothing among them has a dependent in the choice, and other
      choices are among them with their symbols. */
  ghost predicate Settled(g: Graph, before: seq<Item>, c: nat) {
    && (forall m, y :: g.Member(c, m) && y in g.Deps(m) ==> y in before)
    && (!LeadsBack(g, c) ==>
          forall z: Item, m: Item {:trigger m in g.Deps(z), g.Member(c, m)} ::
            z.SymItem? && (z in before || g.Member(c, z)) && m in g.Deps(z) ==> !g.Member(c, m))
    && (forall d: nat, m {:trigger g.Member(d, m)} :: ChItem(d) in before && g.Member(d, m) ==> m in before)
  }

  ghost predicate FinishedWell(g: Graph, before: seq<Item>, x: Item) {
    match x
    case SymItem(_) => forall y :: y in g.Deps(x) ==> y in before
    case ChItem(c) => Settled(g, before, c)
  }

  ghost predicate Recorded(g: Graph, order: seq<Item>) {
    Distinct(order) && forall i :: 0 <= i < |order| ==> FinishedWell(g, order[..i], order[i])
  }

  lemma RecordedSnoc(g: Graph, order: seq<Item>, x: Item)
    requires Recorded(g, order) && x !in order && FinishedWell(g, order, x)
    ensures Recorded(g, order + [x])
  {
    hide FinishedWell;
    var all := order + [x];
    forall i | 0 <= i < |all| ensures FinishedWell(g, all[..i], all[i]) {
      if i < |order| { assert all[..i] == order[..i]; } else { assert all[..i] == order; }
    }
  }

  /** The colors agree with the order. A checked symbol has not left its choice unvisited. */
  ghost predicate StateOk(g: Graph, st: State) {
    && st.visited.Keys == AllItems(g.k)
    && (forall x :: x in st.order <==> x in st.visited && st.visited[x].Checked?)
    && Recorded(g, st.order)
    && (forall x, c: nat {:trigger g.Member(c, x)} :: x in st.order && g.Member(c, x) ==> ChItem(c) !in st.With(Unvisited))
  }

  /** The symbols of checked choices are checked, apart from the one that a call skips. */
  ghost predicate ChoicesDone(g: Graph, st: State, except: Option<nat>) {
    forall d: nat, m {:trigger g.Member(d, m)} ::
      ChItem(d) in st.order && g.Member(d, m) ==> m in st.order || except == Some(m.s)
  }

  function Exception(call: Call): Option<nat> {
    if call.ChCall? then call.skip else None
  }

  /** What holds when a call is made. */
  ghost predicate Ready(g: Graph, st: State, call: Call) {
    && StateOk(g, st) && ChoicesDone(g, st, Exception(call)) && call.Target() in AllItems(g.k)
    && match call
       case SymCall(s, ignoreChoice) =>
         ignoreChoice ==> g.k.Sym(s).choice.Some? && ChItem(g.k.Sym(s).choice.value) in st.With(Active)
       case ChCall(c, skip) =>
         skip.Some? ==> g.Member(c, SymItem(skip.value)) && SymItem(skip.value) in st.With(Active)
                        && forall y :: y in g.Deps(SymItem(skip.value)) ==> y in st.order
  }

  /** The item has been visited on the way from 'x'. */
  ghost predicate Visited(g: Graph, st: State, x: Item, y: Item) {
    exists p :: Path(g, p) && p[|p| - 1] == x && p[0] == y && forall z :: z in p ==> z in st.With(Unvisited)
  }

  /** The items finished since 'st'. */
  function Since(st: State, st': State): seq<Item> {
    if |st.order| <= |st'.order| then st'.order[|st.order|..] else []
  }

  /** Symbols that have been visited other than by way of their choice have finished it. */
  ghost predicate ChoiceDone(g: Graph, st: State, x: Item) {
    forall d: nat :: g.Member(d, x) ==> ChItem(d) in st.order
  }

  /** What holds when a call has returned without a loop. */
  ghost predicate Done(g: Graph, st: State, call: Call, st': State) {
    && StateOk(g, st') && ChoicesDone(g, st', Exception(call)) && st.order <= st'.order && call.Target() in st'.order
    && (forall x :: x in Since(st, st') ==>
          && Visited(g, st, call.Target(), x)
          && (ChoiceDone(g, st', x) || (call.SymCall? && call.ignoreChoice && x == call.Target())))
    && (Since(st, st') != [] ==> st'.order[|st'.order| - 1] == call.Target())
  }

  // Entering and leaving

  lemma EnterOk(g: Graph, st: State, it: Item)
    requires StateOk(g, st) && st.ColorOf(it).Unvisited?
    ensures StateOk(g, st.Enter(it)) && it !in st.order
    ensures st.Enter(it).With(Unvisited) == st.With(Unvisited) - {it}
    ensures st.Enter(it).With(Active) == st.With(Active) + {it}
  {
    hide Recorded;
  }

  lemma LeaveOk(g: Graph, st: State, it: Item)
    requires StateOk(g, st) && it in st.With(Active) && FinishedWell(g, st.order, it)
    requires forall c: nat :: g.Member(c, it) ==> ChItem(c) !in st.With(Unvisited)
    ensures StateOk(g, st.Leave(it))
  {
    hide FinishedWell;
    var st' := st.Leave(it);
    RecordedSnoc(g, st.order, it);
    forall x ensures x in st'.order <==> x in st'.visited && st'.visited[x].Checked? {
      assert x in st'.order <==> x in st.order || x == it;
    }
    hide Recorded;
    assert st'.With(Unvisited) == st.With(Unvisited);
  }

  lemma VisitedSelf(g: Graph, st: State, x: Item)
    requires x in st.With(Unvisited)
    ensures Visited(g, st, x, x)
  {
    assert Path(g, [x]) && [x][0] == x;
  }

  /** One more step at the start of a path. */
  lemma VisitedFrom(g: Graph, st: State, it: Item, n: Item, y: Item)
    requires it in st.With(Unvisited) && Edge(g, it, n) && Visited(g, st.Enter(it), n, y)
    ensures Visited(g, st, it, y)
  {
    var p :| Path(g, p) && p[|p| - 1] == n && p[0] == y && forall z :: z in p ==> z in st.Enter(it).With(Unvisited);
    var q := p + [it];
    assert it !in p;
    assert Path(g, q) && q[|q| - 1] == it && q[0] == y;
    forall z | z in q ensures z in st.With(Unvisited) { assert z in p || z == it; }
  }

  lemma VisitedEarlier(g: Graph, st: State, st': State, x: Item, y: Item)
    requires st'.With(Unvisited) <= st.With(Unvisited) && Visited(g, st', x, y)
    ensures Visited(g, st, x, y)
  {
    var p :| Path(g, p) && p[|p| - 1] == x && p[0] == y && forall z :: z in p ==> z in st'.With(Unvisited);
  }

  lemma SinceSplit(a: State, b: State, c: State, x: Item)
    requires a.order <= b.order <= c.order
    ensures x in Since(a, c) <==> x in Since(a, b) || x in Since(b, c)
    ensures a.order <= c.order
  {
    assert c.order[|a.order|..] == b.order[|a.order|..] + c.order[|b.order|..];
  }

  // Calls for the dependents of a symbol

  /** Calls that neither ignore nor skip anything. */
  ghost predicate Plain(g: Graph, calls: seq<Call>) {
    forall i :: 0 <= i < |calls| ==>
      && calls[i].Target() in AllItems(g.k)
      && (if calls[i].SymCall? then !calls[i].ignoreChoice else calls[i].skip.None?)
  }

  /** What holds when plain calls have returned without a loop. */
  ghost predicate DoneEach(g: Graph, st: State, calls: seq<Call>, st': State) {
    && StateOk(g, st') && ChoicesDone(g, st', None) && st.order <= st'.order
    && (forall i :: 0 <= i < |calls| ==> calls[i].Target() in st'.order)
    && (forall x :: x in Since(st, st') ==>
          ChoiceDone(g, st', x) && exists i :: 0 <= i < |calls| && Visited(g, st, calls[i].Target(), x))
  }

  lemma DoneEachMore(g: Graph, st: State, calls: seq<Call>, st1: State, st2: State)
    requires calls != [] && Plain(g, calls) && Done(g, st, calls[0], st1) && DoneEach(g, st1, calls[1..], st2)
    requires st1.With(Unvisited) <= st.With(Unvisited)
    ensures DoneEach(g, st, calls, st2)
  {
    hide StateOk, Visited;
    var rest := calls[1..];
    SinceSplit(st, st1, st2, calls[0].Target());
    forall i | 0 <= i < |calls| ensures calls[i].Target() in st2.order {
      if i > 0 { assert calls[i] == rest[i - 1]; } else { assert calls[0].Target() in st1.order; }
    }
    forall x | x in Since(st, st2)
      ensures ChoiceDone(g, st2, x) && exists i :: 0 <= i < |calls| && Visited(g, st, calls[i].Target(), x)
    {
      SinceSplit(st, st1, st2, x);
      if x in Since(st1, st2) {
        var i :| 0 <= i < |rest| && Visited(g, st1, rest[i].Target(), x);
        VisitedEarlier(g, st, st1, rest[i].Target(), x);
        assert calls[i + 1] == rest[i];
      } else {
        assert ChoiceDone(g, st1, x) && Visited(g, st, calls[0].Target(), x);
      }
    }
  }

  lemma {:induction false} EachDone(g: Graph, st: State, it: Item, calls: seq<Call>)
    requires GraphOk(g) && Paired(g.k) && StateOk(g, st) && ChoicesDone(g, st, None) && Plain(g, calls)
    requires CheckEach(g, st, it, calls).r.NoLoop?
    ensures DoneEach(g, st, calls, CheckEach(g, st, it, calls).st)
    decreases st.With(Unvisited), 1 + |calls|
  {
    hide StateOk, ChoicesDone, Check, Done, DoneEach, GraphOk, Paired;
    if calls == [] {
      NothingDone(g, st);
    } else {
      var a := Check(g, st, calls[0]);
      PlainIsReady(g, st, calls);
      CheckDone(g, st, calls[0]);
      DoneIsOk(g, st, calls[0], a.st);
      EachDone(g, a.st, it, calls[1..]);
      DoneEachMore(g, st, calls, a.st, CheckEach(g, a.st, it, calls[1..]).st);
    }
  }

  lemma NothingDone(g: Graph, st: State)
    requires StateOk(g, st) && ChoicesDone(g, st, None)
    ensures DoneEach(g, st, [], st)
  {
  }

  lemma PlainIsReady(g: Graph, st: State, calls: seq<Call>)
    requires StateOk(g, st) && ChoicesDone(g, st, None) && Plain(g, calls) && calls != []
    ensures Ready(g, st, calls[0]) && Exception(calls[0]) == None && Plain(g, calls[1..])
  {
    hide StateOk, ChoicesDone;
  }

  lemma DoneIsOk(g: Graph, st: State, call: Call, st': State)
    requires Done(g, st, call, st')
    ensures StateOk(g, st') && ChoicesDone(g, st', Exception(call)) && st.order <= st'.order && call.Target() in st'.order
  {
  }

  // The two kinds of calls

  lemma {:induction false} CheckDone(g: Graph, st: State, call: Call)
    requires GraphOk(g) && Paired(g.k) && Ready(g, st, call) && Check(g, st, call).r.NoLoop?
    ensures Done(g, st, call, Check(g, st, call).st)
    decreases st.With(Unvisited), 0
  {
    hide StateOk, ChoicesDone, CheckEach, Done, GraphOk, Paired;
    var it := call.Target();
    if st.ColorOf(it).Checked? {
      CheckedBefore(g, st, call);
    } else {
      ReadyIsOk(g, st, call);
      EnterOk(g, st, it);
      if call.SymCall? {
        SymDone(g, st, call.s, call.ignoreChoice);
      } else {
        ChDone(g, st, call.c, call.skip);
      }
    }
  }

  lemma ReadyIsOk(g: Graph, st: State, call: Call)
    requires Ready(g, st, call)
    ensures StateOk(g, st) && ChoicesDone(g, st, Exception(call))
  {
  }

  lemma CheckedBefore(g: Graph, st: State, call: Call)
    requires Ready(g, st, call) && st.ColorOf(call.Target()).Checked?
    ensures Done(g, st, call, st)
  {
    hide Recorded, Visited;
    assert Since(st, st) == [];
  }

  lemma DepsArePlain(g: Graph, s: nat)
    requires GraphOk(g) && SymItem(s) in AllItems(g.k)
    ensures Plain(g, DepCalls(g.Deps(SymItem(s))))
  {
  }

  /** A call for an unvisited symbol: first its dependents, then its choice. */
  lemma {:induction false} SymDone(g: Graph, st: State, s: nat, ignoreChoice: bool)
    requires var call := SymCall(s, ignoreChoice);
             GraphOk(g) && Paired(g.k) && Ready(g, st, call) && Check(g, st, call).r.NoLoop?
    requires st.ColorOf(SymItem(s)).Unvisited?
    ensures Done(g, st, SymCall(s, ignoreChoice), Check(g, st, SymCall(s, ignoreChoice)).st)
    decreases st.With(Unvisited) - {SymItem(s)}, 1 + |Calls(g, SymCall(s, ignoreChoice))| + 1
  {
    hide StateOk, ChoicesDone, CheckEach, Done, DoneEach, GraphOk, Paired, Plain;
    var it, st1 := SymItem(s), st.Enter(SymItem(s));
    var deps := DepCalls(g.Deps(it));
    var tail := if ignoreChoice then [] else ChoiceCalls(g, s);
    ReadyIsOk(g, st, SymCall(s, ignoreChoice));
    EnterOk(g, st, it);
    SameOrder(g, st, st1);
    DepsArePlain(g, s);
    CheckEachConcat(g, st1, it, deps, tail);
    EachDone(g, st1, it, deps);
    var st2 := CheckEach(g, st1, it, deps).st;
    if tail == [] {
      CheckNone(g, st2, it);
      SymFinished(g, st, s, ignoreChoice, st2, st2);
    } else {
      var n := tail[0];
      CheckOne(g, st2, it, n);
      SkipIsReady(g, st, s, st2);
      CheckDone(g, st2, n);
      SymFinished(g, st, s, ignoreChoice, st2, Check(g, st2, n).st);
    }
  }

  lemma SameOrder(g: Graph, st: State, st': State)
    requires st.order == st'.order
    ensures forall e :: ChoicesDone(g, st, e) <==> ChoicesDone(g, st', e)
  {
  }

  lemma CheckNone(g: Graph, st: State, it: Item)
    ensures CheckEach(g, st, it, []) == Found(NoLoop, st)
  {
  }

  lemma CheckOne(g: Graph, st: State, it: Item, n: Call)
    requires CheckEach(g, st, it, [n]).r.NoLoop?
    ensures CheckEach(g, st, it, [n]) == Check(g, st, n) && Check(g, st, n).r.NoLoop?
  {
    hide Check;
  }

  /** The choice may be checked when the dependents of its active symbol 's' are done. */
  lemma SkipIsReady(g: Graph, st: State, s: nat, st2: State)
    requires var it := SymItem(s);
             GraphOk(g) && it in AllItems(g.k) && g.k.Sym(s).choice.Some? && st.ColorOf(it).Unvisited? && it in st.visited
    requires DoneEach(g, st.Enter(SymItem(s)), DepCalls(g.Deps(SymItem(s))), st2)
    requires st2.With(Active) == st.With(Active) + {SymItem(s)}
    ensures Ready(g, st2, ChCall(g.k.Sym(s).choice.value, Some(s)))
  {
    hide StateOk, Visited;
    var it := SymItem(s);
    var deps := g.Deps(it);
    forall y | y in deps ensures y in st2.order {
      var i :| 0 <= i < |deps| && deps[i] == y;
      assert DepCalls(deps)[i].Target() == y;
    }
  }

  /** A symbol is finished when its dependents, and its choice if it is not ignored, are done. */
  lemma SymFinished(g: Graph, st: State, s: nat, ignoreChoice: bool, st2: State, st3: State)
    requires Ready(g, st, SymCall(s, ignoreChoice)) && st.ColorOf(SymItem(s)).Unvisited?
    requires DoneEach(g, st.Enter(SymItem(s)), DepCalls(g.Deps(SymItem(s))), st2)
    requires st2.With(Unvisited) <= st.Enter(SymItem(s)).With(Unvisited)
    requires st3.With(Active) == st.With(Active) + {SymItem(s)}
    requires if ignoreChoice || g.k.Sym(s).choice.None? then st3 == st2
             else Done(g, st2, ChCall(g.k.Sym(s).choice.value, Some(s)), st3)
    ensures Done(g, st, SymCall(s, ignoreChoice), st3.Leave(SymItem(s)))
  {
    hide StateOk, ChoicesDone, DoneEach, Visited, Edge;
    var it, st1, st4 := SymItem(s), st.Enter(SymItem(s)), st3.Leave(SymItem(s));
    SymLeaves(g, st, s, ignoreChoice, st2, st3);
    forall x | x in Since(st, st4)
      ensures Visited(g, st, it, x) && (ChoiceDone(g, st4, x) || (ignoreChoice && x == it))
    {
      if x == it {
        VisitedSelf(g, st, it);
      } else {
        SinceSplit(st1, st2, st3, x);
        SymVisited(g, st, s, ignoreChoice, st2, st3, x);
      }
    }
  }

  lemma SymLeaves(g: Graph, st: State, s: nat, ignoreChoice: bool, st2: State, st3: State)
    requires Ready(g, st, SymCall(s, ignoreChoice)) && st.ColorOf(SymItem(s)).Unvisited?
    requires DoneEach(g, st.Enter(SymItem(s)), DepCalls(g.Deps(SymItem(s))), st2)
    requires st2.With(Unvisited) <= st.Enter(SymItem(s)).With(Unvisited)
    requires st3.With(Active) == st.With(Active) + {SymItem(s)}
    requires if ignoreChoice || g.k.Sym(s).choice.None? then st3 == st2
             else Done(g, st2, ChCall(g.k.Sym(s).choice.value, Some(s)), st3)
    ensures var it, st1, st4 := SymItem(s), st.Enter(SymItem(s)), st3.Leave(SymItem(s));
            && StateOk(g, st4) && ChoicesDone(g, st4, None) && st1.order <= st2.order <= st3.order
            && st.order <= st4.order && Since(st, st4) == Since(st1, st3) + [it] && it in st.With(Unvisited)
            && (forall d: nat :: g.Member(d, it) && !ignoreChoice ==> ChItem(d) in st4.order)
  {
    hide StateOk, ChoicesDone, Visited, Edge, ChoiceDone;
    var it, st1, st4 := SymItem(s), st.Enter(SymItem(s)), st3.Leave(SymItem(s));
    EnterOk(g, st, it);
    DependentsDone(g, st1, s, st2);
    assert Since(st2, st2) == [];
    assert StateOk(g, st3) && st2.order <= st3.order && (forall y :: y in st2.order ==> y in st3.order);
    assert ChoicesDone(g, st3, if st3 == st2 then None else Some(s)) || ChoicesDone(g, st3, Some(s)) || ChoicesDone(g, st3, None);
    forall c: nat | g.Member(c, it) ensures ChItem(c) !in st3.With(Unvisited) && (!ignoreChoice ==> ChItem(c) in st3.order) {
      if ignoreChoice { assert ChItem(c) in st3.With(Active); } else { OrderIsChecked(g, st3, ChItem(c)); }
    }
    LeaveOk(g, st3, it);
    LeaveCompletes(g, st3, s);
  }

  lemma OrderIsChecked(g: Graph, st: State, x: Item)
    requires StateOk(g, st) && x in st.order
    ensures x !in st.With(Unvisited) && x !in st.With(Active)
  {
  }

  lemma LeaveCompletes(g: Graph, st: State, s: nat)
    requires ChoicesDone(g, st, None) || ChoicesDone(g, st, Some(s))
    ensures ChoicesDone(g, st.Leave(SymItem(s)), None)
  {
  }

  lemma DependentsDone(g: Graph, st: State, s: nat, st': State)
    requires DoneEach(g, st, DepCalls(g.Deps(SymItem(s))), st')
    ensures forall y :: y in g.Deps(SymItem(s)) ==> y in st'.order
  {
    hide StateOk, ChoicesDone, Visited, ChoiceDone;
    var deps := g.Deps(SymItem(s));
    forall y | y in deps ensures y in st'.order {
      var i :| 0 <= i < |deps| && deps[i] == y;
      assert DepCalls(deps)[i].Target() == y;
    }
  }

  /** What has been finished on the way. */
  lemma SymVisited(g: Graph, st: State, s: nat, ignoreChoice: bool, st2: State, st3: State, x: Item)
    requires SymItem(s) in st.With(Unvisited) && st2.order <= st3.order
    requires DoneEach(g, st.Enter(SymItem(s)), DepCalls(g.Deps(SymItem(s))), st2)
    requires st2.With(Unvisited) <= st.Enter(SymItem(s)).With(Unvisited)
    requires if ignoreChoice || g.k.Sym(s).choice.None? then st3 == st2
             else Done(g, st2, ChCall(g.k.Sym(s).choice.value, Some(s)), st3)
    requires x in Since(st.Enter(SymItem(s)), st2) || x in Since(st2, st3)
    ensures Visited(g, st, SymItem(s), x) && ChoiceDone(g, st3, x)
  {
    hide StateOk, ChoicesDone, Visited;
    var it, st1 := SymItem(s), st.Enter(SymItem(s));
    if x in Since(st1, st2) {
      var calls := DepCalls(g.Deps(it));
      var i :| 0 <= i < |calls| && Visited(g, st1, calls[i].Target(), x);
      assert calls[i].Target() == g.Deps(it)[i];
      VisitedFrom(g, st, it, calls[i].Target(), x);
    } else {
      var c := ChItem(g.k.Sym(s).choice.value);
      assert Since(st2, st2) == [];
      VisitedEarlier(g, st1, st2, c, x);
      VisitedFrom(g, st, it, c, x);
    }
  }

  // The symbols of a choice, one after the other

  /** What holds when the first 'i' symbols have been checked, since 'st0', when the choice was
      entered. */
  ghost predicate MembersSoFar(g: Graph, st0: State, st: State, c: nat, calls: seq<Call>, i: nat) {
    && StateOk(g, st) && ChoicesDone(g, st, None) && st0.order <= st.order && i <= |calls|
    && ChItem(c) in st.With(Active) && st.With(Unvisited) <= st0.With(Unvisited)
    && (forall j :: 0 <= j < i ==> calls[j].Target() in st.order)
    && (forall x :: x in Since(st0, st) ==>
          && (exists j :: 0 <= j < i && Visited(g, st0, calls[j].Target(), x))
          && (ChoiceDone(g, st, x) || exists j :: 0 <= j < i && calls[j].Target() == x))
    && (forall m :: m in st0.order ==> !g.Member(c, m))
    && (!LeadsBack(g, c) ==> forall z: Item, m: Item {:trigger m in g.Deps(z), g.Member(c, m)} ::
          z.SymItem? && z in Since(st0, st) && m in g.Deps(z) ==> !g.Member(c, m))
  }

  lemma {:induction false} MembersDone(g: Graph, st0: State, st: State, c: nat, skip: Option<nat>, i: nat)
    requires var calls := MemberCalls(g.k.Choice(c).syms, skip);
             && GraphOk(g) && Paired(g.k) && ChItem(c) in AllItems(g.k) && MembersSoFar(g, st0, st, c, calls, i)
             && CheckEach(g, st, ChItem(c), calls[i..]).r.NoLoop?
    ensures var calls := MemberCalls(g.k.Choice(c).syms, skip);
            MembersSoFar(g, st0, CheckEach(g, st, ChItem(c), calls[i..]).st, c, calls, |calls|)
    decreases st.With(Unvisited), 1 + |MemberCalls(g.k.Choice(c).syms, skip)| - i
  {
    hide MembersSoFar, Check, Done, GraphOk, Paired, MemberCalls;
    var calls, it := MemberCalls(g.k.Choice(c).syms, skip), ChItem(c);
    if i < |calls| {
      var a := Check(g, st, calls[i]);
      assert calls[i..][0] == calls[i] && calls[i..][1..] == calls[i + 1..];
      MemberIsReady(g, st0, st, c, skip, i);
      CheckDone(g, st, calls[i]);
      MembersMore(g, st0, st, c, skip, i, a.st);
      MembersDone(g, st0, a.st, c, skip, i + 1);
    } else {
      assert i == |calls| by { CountOk(g, st0, st, c, calls, i); }
    }
  }

  lemma CountOk(g: Graph, st0: State, st: State, c: nat, calls: seq<Call>, i: nat)
    requires MembersSoFar(g, st0, st, c, calls, i)
    ensures i <= |calls|
  {
  }

  lemma MemberIsReady(g: Graph, st0: State, st: State, c: nat, skip: Option<nat>, i: nat)
    requires var calls := MemberCalls(g.k.Choice(c).syms, skip);
             GraphOk(g) && Paired(g.k) && MembersSoFar(g, st0, st, c, calls, i) && i < |calls|
    ensures Ready(g, st, MemberCalls(g.k.Choice(c).syms, skip)[i])
  {
    hide StateOk, Visited;
    MemberCallsAre(g.k.Choice(c).syms, skip, i);
    var s := MemberCalls(g.k.Choice(c).syms, skip)[i].s;
    assert s in g.k.Choice(c).syms;
  }

  /** The order of the calls is that of the symbols. */
  lemma {:induction false} MemberCallsInOrder(syms: seq<nat>, skip: Option<nat>, i: nat, j: nat) returns (a: nat, b: nat)
    requires i < j < |MemberCalls(syms, skip)|
    ensures a < b < |syms|
    ensures MemberCalls(syms, skip)[i] == SymCall(syms[a], true) && MemberCalls(syms, skip)[j] == SymCall(syms[b], true)
  {
    if Some(syms[0]) == skip {
      a, b := MemberCallsInOrder(syms[1..], skip, i, j);
      a, b := a + 1, b + 1;
    } else if i > 0 {
      a, b := MemberCallsInOrder(syms[1..], skip, i - 1, j - 1);
      a, b := a + 1, b + 1;
    } else {
      b := MemberCallAt(syms[1..], skip, j - 1);
      a, b := 0, b + 1;
    }
  }

  lemma {:induction false} MemberCallAt(syms: seq<nat>, skip: Option<nat>, j: nat) returns (b: nat)
    requires j < |MemberCalls(syms, skip)|
    ensures b < |syms| && MemberCalls(syms, skip)[j] == SymCall(syms[b], true)
  {
    if Some(syms[0]) == skip {
      b := MemberCallAt(syms[1..], skip, j);
      b := b + 1;
    } else if j > 0 {
      b := MemberCallAt(syms[1..], skip, j - 1);
      b := b + 1;
    } else {
      b := 0;
    }
  }

  /** One more symbol of the choice. */
  lemma MembersMore(g: Graph, st0: State, st: State, c: nat, skip: Option<nat>, i: nat, st': State)
    requires var calls := MemberCalls(g.k.Choice(c).syms, skip);
             && Paired(g.k) && MembersSoFar(g, st0, st, c, calls, i) && i < |calls| && Done(g, st, calls[i], st')
    requires st'.With(Active) == st.With(Active) && st'.With(Unvisited) <= st.With(Unvisited)
    ensures MembersSoFar(g, st0, st', c, MemberCalls(g.k.Choice(c).syms, skip), i + 1)
  {
    hide StateOk, ChoicesDone, Visited, Recorded, LeadsBack;
    var calls := MemberCalls(g.k.Choice(c).syms, skip);
    MemberCallsAre(g.k.Choice(c).syms, skip, i);
    assert ChoicesDone(g, st', None);
    SinceSplit(st0, st, st', calls[i].Target());
    forall x | x in Since(st0, st')
      ensures exists j :: 0 <= j < i + 1 && Visited(g, st0, calls[j].Target(), x)
      ensures ChoiceDone(g, st', x) || exists j :: 0 <= j < i + 1 && calls[j].Target() == x
    {
      SinceSplit(st0, st, st', x);
      if x in Since(st0, st) {
        assert ChoiceDone(g, st, x) ==> ChoiceDone(g, st', x);
      } else {
        VisitedEarlier(g, st0, st, calls[i].Target(), x);
      }
    }
    if !LeadsBack(g, c) {
      forall z: Item, m: Item {:trigger m in g.Deps(z), g.Member(c, m)} | z.SymItem? && z in Since(st0, st') && m in g.Deps(z)
        ensures !g.Member(c, m)
      {
        SinceSplit(st0, st, st', z);
        if z in Since(st, st') && g.Member(c, m) { WayBack(g, st0, st, c, skip, i, st', z, m); }
      }
    }
  }

  /** If a symbol of the choice is among the dependents of what has been visited on the way from
      another one, then that is a later one, and leads back. */
  lemma WayBack(g: Graph, st0: State, st: State, c: nat, skip: Option<nat>, i: nat, st': State, z: Item, m: Item)
    requires var calls := MemberCalls(g.k.Choice(c).syms, skip);
             && MembersSoFar(g, st0, st, c, calls, i) && i < |calls| && Done(g, st, calls[i], st')
    requires st'.With(Active) == st.With(Active)
    requires z.SymItem? && z in Since(st, st') && m in g.Deps(z) && g.Member(c, m)
    ensures LeadsBack(g, c)
  {
    hide StateOk, ChoicesDone, MembersSoFar, Done, Path, Leads, Visited;
    var calls := MemberCalls(g.k.Choice(c).syms, skip);
    MemberCallsAre(g.k.Choice(c).syms, skip, i);
    BeforeDependent(g, st, calls[i], st', z, m);
    var j := OldMember(g, st0, st, c, calls, i, st', m);
    DoneVisited(g, st, calls[i], st', z);
    OldColors(g, st0, st, c, calls, i, m);
    VisitedLeads(g, st, c, calls[i].Target(), z, m);
    var a, b := MemberCallsInOrder(g.k.Choice(c).syms, skip, j, i);
  }

  lemma DoneVisited(g: Graph, st: State, call: Call, st': State, z: Item)
    requires Done(g, st, call, st') && z in Since(st, st')
    ensures Visited(g, st, call.Target(), z)
  {
  }

  lemma OldColors(g: Graph, st0: State, st: State, c: nat, calls: seq<Call>, i: nat, m: Item)
    requires MembersSoFar(g, st0, st, c, calls, i) && m in st.order
    ensures m !in st.With(Unvisited) && ChItem(c) !in st.With(Unvisited)
  {
  }

  /** A checked symbol of an active choice is one of those that the choice has called for. */
  lemma OldMember(g: Graph, st0: State, st: State, c: nat, calls: seq<Call>, i: nat, st': State, m: Item)
      returns (j: nat)
    requires MembersSoFar(g, st0, st, c, calls, i) && i < |calls| && Done(g, st, calls[i], st')
    requires st'.With(Active) == st.With(Active) && g.Member(c, m) && m in st'.order
    requires m == calls[i].Target() ==> m in st.order
    ensures m in st.order && j < i && calls[j].Target() == m
  {
    hide ChoicesDone, Visited, Recorded, LeadsBack;
    assert ChItem(c) !in st'.order && ChItem(c) !in st.order;
    assert m in Since(st, st') ==> m == calls[i].Target();
    assert m in st.order;
    assert m in Since(st0, st);
    assert ChoiceDone(g, st, m) ==> ChItem(c) in st.order;
    j :| 0 <= j < i && calls[j].Target() == m;
  }

  lemma VisitedLeads(g: Graph, st: State, c: nat, x: Item, z: Item, m: Item)
    requires Visited(g, st, x, z) && z.SymItem? && m in g.Deps(z)
    requires m !in st.With(Unvisited) && ChItem(c) !in st.With(Unvisited) && m.SymItem?
    ensures Leads(g, c, x, m)
  {
    var p :| Path(g, p) && p[|p| - 1] == x && p[0] == z && forall y :: y in p ==> y in st.With(Unvisited);
    LeadsTo(g, st, c, p, m);
  }

  /** A dependent that is finished before 'z', and is not the item of the call, was finished
      before the call, if it is a symbol of an active choice. */
  lemma BeforeDependent(g: Graph, st: State, call: Call, st': State, z: Item, m: Item)
    requires Done(g, st, call, st') && z.SymItem? && z in Since(st, st') && m in g.Deps(z)
    ensures m in st'.order && (m == call.Target() ==> m in st.order)
  {
    hide Visited, Settled;
    var order := st'.order;
    var i :| |st.order| <= i < |order| && order[i] == z;
    assert FinishedWell(g, order[..i], order[i]);
    var j :| 0 <= j < i && order[j] == m;
    assert j != |order| - 1;
  }

  lemma LeadsTo(g: Graph, st: State, c: nat, p: seq<Item>, m: Item)
    requires Path(g, p) && (forall y :: y in p ==> y in st.With(Unvisited))
    requires p[0].SymItem? && m in g.Deps(p[0]) && m !in st.With(Unvisited) && ChItem(c) !in st.With(Unvisited)
    requires m.SymItem?
    ensures Leads(g, c, p[|p| - 1], m)
  {
    var q := [m] + p;
    assert forall i :: 1 <= i < |q| ==> q[i] == p[i - 1] && q[i] in p;
    assert Path(g, q);
  }

  /** A call for an unvisited choice. */
  lemma {:induction false} ChDone(g: Graph, st: State, c: nat, skip: Option<nat>)
    requires var call := ChCall(c, skip);
             GraphOk(g) && Paired(g.k) && Ready(g, st, call) && Check(g, st, call).r.NoLoop?
    requires st.ColorOf(ChItem(c)).Unvisited?
    ensures Done(g, st, ChCall(c, skip), Check(g, st, ChCall(c, skip)).st)
    decreases st.With(Unvisited) - {ChItem(c)}, 1 + |Calls(g, ChCall(c, skip))| + 1
  {
    hide StateOk, ChoicesDone, CheckEach, Done, GraphOk, Paired, MembersSoFar;
    var it, st1, calls := ChItem(c), st.Enter(ChItem(c)), MemberCalls(g.k.Choice(c).syms, skip);
    EnterOk(g, st, it);
    assert calls[0..] == calls;
    NoMembersYet(g, st, c, skip);
    assert it in AllItems(g.k);
    MembersDone(g, st1, st1, c, skip, 0);
    ChFinished(g, st, c, skip, CheckEach(g, st1, it, calls).st);
  }

  lemma NoMembersYet(g: Graph, st: State, c: nat, skip: Option<nat>)
    requires Ready(g, st, ChCall(c, skip)) && st.ColorOf(ChItem(c)).Unvisited?
    ensures MembersSoFar(g, st.Enter(ChItem(c)), st.Enter(ChItem(c)), c, MemberCalls(g.k.Choice(c).syms, skip), 0)
  {
    hide Recorded, LeadsBack, Visited;
    EnterOk(g, st, ChItem(c));
    assert Since(st.Enter(ChItem(c)), st.Enter(ChItem(c))) == [];
    assert ChItem(c) in st.With(Unvisited);
  }

  lemma ChFinished(g: Graph, st: State, c: nat, skip: Option<nat>, st': State)
    requires Paired(g.k) && Ready(g, st, ChCall(c, skip)) && st.ColorOf(ChItem(c)).Unvisited?
    requires var calls := MemberCalls(g.k.Choice(c).syms, skip);
             MembersSoFar(g, st.Enter(ChItem(c)), st', c, calls, |calls|)
    requires st'.With(Active) == st.With(Active) + {ChItem(c)}
    ensures Done(g, st, ChCall(c, skip), st'.Leave(ChItem(c)))
  {
    hide StateOk, ChoicesDone, Visited, Edge, ChoiceDone, LeadsBack, Settled;
    var it, st1, st2 := ChItem(c), st.Enter(ChItem(c)), st'.Leave(ChItem(c));
    var calls := MemberCalls(g.k.Choice(c).syms, skip);
    EnterOk(g, st, it);
    ChSettled(g, st, c, skip, st');
    LeaveOk(g, st', it);
    LeaveSkips(g, st', c, skip) by { MembersChecked(g, st, c, skip, st'); }
    assert Since(st, st2) == Since(st1, st') + [it];
    forall x | x in Since(st, st2) ensures Visited(g, st, it, x) && ChoiceDone(g, st2, x) {
      if x == it {
        VisitedSelf(g, st, it);
        ChoicesAreNoMembers(g, st2, it);
      } else {
        MemberVisited(g, st, c, skip, st', x);
      }
    }
  }

  lemma ChoicesAreNoMembers(g: Graph, st: State, it: Item)
    requires it.ChItem?
    ensures ChoiceDone(g, st, it)
  {
  }

  /** The symbols of the choice have been checked, apart from the one that is skipped. */
  lemma MembersChecked(g: Graph, st: State, c: nat, skip: Option<nat>, st': State)
    requires var calls := MemberCalls(g.k.Choice(c).syms, skip);
             Paired(g.k) && MembersSoFar(g, st.Enter(ChItem(c)), st', c, calls, |calls|)
    ensures forall m :: g.Member(c, m) ==> m in st'.order || skip == Some(m.s)
  {
    hide StateOk, ChoicesDone, Visited, ChoiceDone, LeadsBack;
    forall m | g.Member(c, m) ensures m in st'.order || skip == Some(m.s) {
      if skip != Some(m.s) {
        assert m.s in g.k.Choice(c).syms;
        var i := CallOf(g.k.Choice(c).syms, skip, m.s);
        assert MemberCalls(g.k.Choice(c).syms, skip)[i].Target() == m;
      }
    }
  }

  lemma {:induction false} CallOf(syms: seq<nat>, skip: Option<nat>, s: nat) returns (i: nat)
    requires s in syms && skip != Some(s)
    ensures i < |MemberCalls(syms, skip)| && MemberCalls(syms, skip)[i] == SymCall(s, true)
  {
    if syms[0] == s {
      i := 0;
    } else {
      i := CallOf(syms[1..], skip, s);
      if Some(syms[0]) != skip { i := i + 1; }
    }
  }

  lemma LeaveSkips(g: Graph, st: State, c: nat, skip: Option<nat>)
    requires ChoicesDone(g, st, None) && forall m :: g.Member(c, m) ==> m in st.order || skip == Some(m.s)
    ensures ChoicesDone(g, st.Leave(ChItem(c)), skip)
  {
  }

  lemma MemberVisited(g: Graph, st: State, c: nat, skip: Option<nat>, st': State, x: Item)
    requires var calls := MemberCalls(g.k.Choice(c).syms, skip);
             MembersSoFar(g, st.Enter(ChItem(c)), st', c, calls, |calls|)
    requires Paired(g.k) && ChItem(c) in st.With(Unvisited) && x in Since(st.Enter(ChItem(c)), st')
    ensures Visited(g, st, ChItem(c), x) && ChoiceDone(g, st'.Leave(ChItem(c)), x)
  {
    hide StateOk, ChoicesDone, Visited, LeadsBack;
    var st1, calls := st.Enter(ChItem(c)), MemberCalls(g.k.Choice(c).syms, skip);
    var j :| 0 <= j < |calls| && Visited(g, st1, calls[j].Target(), x);
    MemberCallsAre(g.k.Choice(c).syms, skip, j);
    VisitedFrom(g, st, ChItem(c), calls[j].Target(), x);
    if !ChoiceDone(g, st', x) {
      var i :| 0 <= i < |calls| && calls[i].Target() == x;
      MemberCallsAre(g.k.Choice(c).syms, skip, i);
      assert x.s in g.k.Choice(c).syms;
    }
  }

  /** The choice is settled when its symbols have been checked. */
  lemma ChSettled(g: Graph, st: State, c: nat, skip: Option<nat>, st': State)
    requires Paired(g.k) && Ready(g, st, ChCall(c, skip)) && st.ColorOf(ChItem(c)).Unvisited?
    requires var calls := MemberCalls(g.k.Choice(c).syms, skip);
             MembersSoFar(g, st.Enter(ChItem(c)), st', c, calls, |calls|)
    ensures Settled(g, st'.order, c)
  {
    hide Visited, LeadsBack, MemberCalls, ChoiceDone;
    var st1 := st.Enter(ChItem(c));
    MembersChecked(g, st, c, skip, st');
    assert Recorded(g, st'.order) && st.order <= st'.order;
    forall z: Item, m: Item | z.SymItem? && z in st'.order && m in g.Deps(z) ensures m in st'.order {
      BeforeInOrder(g, st'.order, z, m);
    }
    forall z: Item, m: Item | z.SymItem? && z in st.order && m in g.Deps(z) ensures m in st.order {
      BeforeInOrder(g, st.order, z, m);
    }
    if !LeadsBack(g, c) {
      forall z: Item, m: Item {:trigger m in g.Deps(z), g.Member(c, m)}
        | z.SymItem? && (z in st'.order || g.Member(c, z)) && m in g.Deps(z)
        ensures !g.Member(c, m)
      {
        if z in st'.order && z !in st.order { assert z in Since(st1, st'); }
      }
    }
  }

  lemma BeforeInOrder(g: Graph, order: seq<Item>, z: Item, m: Item)
    requires Recorded(g, order) && z.SymItem? && z in order && m in g.Deps(z)
    ensures m in order
  {
    hide Settled;
    var i :| 0 <= i < |order| && order[i] == z;
    assert FinishedWell(g, order[..i], order[i]);
  }
}
