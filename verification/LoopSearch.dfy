/** Dependency loop detection by depth-first search over the dependents of each symbol, as a
    function of the order in which dependents are visited. */
module LoopSearch {
  import opened Wrappers
  import opened Expressions
  import opened Evaluation
  import opened Semantics
  import opened Dependencies

  /** Symbol._visited and Choice._visited: 0, 1 and 2. */
  datatype Color = Unvisited | Active | Checked

  /** What the checking functions return, or the KconfigError that they raise. */
  datatype Outcome = NoLoop | Partial(loop: seq<Item>) | Raised(loop: seq<Item>)

  /** 'after' has the _dependents of each item, in the order in which a loop goes over them. */
  datatype Graph = Graph(k: Config, after: map<Item, seq<Item>>) {
    function Deps(x: Item): seq<Item> {
      if x in after then after[x] else []
    }

    /** Is 'x' a symbol of choice 'c'? */
    predicate Member(c: nat, x: Item) {
      x.SymItem? && k.Sym(x.s).choice == Some(c)
    }
  }

  /** The colors, and the checked items in the order in which they were finished. */
  datatype State = State(visited: map<Item, Color>, order: seq<Item>) {
    function ColorOf(x: Item): Color {
      if x in visited then visited[x] else Checked
    }

    function With(color: Color): set<Item> {
      set x | x in visited && visited[x] == color
    }

    function Enter(x: Item): State {
      State(visited[x := Active], order)
    }

    function Leave(x: Item): State {
      State(visited[x := Checked], order + [x])
    }
  }

  /** A call of _check_dep_loop_sym() or _check_dep_loop_choice(). */
  datatype Call = SymCall(s: nat, ignoreChoice: bool) | ChCall(c: nat, skip: Option<nat>) {
    function Target(): Item {
      match this
      case SymCall(s, _) => SymItem(s)
      case ChCall(c, _) => ChItem(c)
    }
  }

  function DepCalls(xs: seq<Item>): (r: seq<Call>)
    ensures |r| == |xs|
    ensures forall i :: 0 <= i < |xs| ==>
              r[i] == if xs[i].SymItem? then SymCall(xs[i].s, false) else ChCall(xs[i].c, None)
  {
    if xs == [] then [] else
    [if xs[0].SymItem? then SymCall(xs[0].s, false) else ChCall(xs[0].c, None)] + DepCalls(xs[1..])
  }

  function ChoiceCalls(g: Graph, s: nat): seq<Call> {
    var c := g.k.Sym(s).choice;
    if c.Some? then [ChCall(c.value, Some(s))] else []
  }

  function MemberCalls(syms: seq<nat>, skip: Option<nat>): seq<Call> {
    if syms == [] then []
    else (if Some(syms[0]) == skip then [] else [SymCall(syms[0], true)]) + MemberCalls(syms[1..], skip)
  }

  /** The calls that a call makes for an unvisited item. A choice that is entered by way of one
      of its symbols skips this symbol, and a symbol that is entered by way of its choice
      ignores the choice. */
  function Calls(g: Graph, call: Call): seq<Call> {
    match call
    case SymCall(s, ignoreChoice) => DepCalls(g.Deps(SymItem(s))) + if ignoreChoice then [] else ChoiceCalls(g, s)
    case ChCall(c, skip) => MemberCalls(g.k.Choice(c).syms, skip)
  }

  datatype Found = Found(r: Outcome, st: State)

  /** _found_dep_loop() */
  function FoundDepLoop(loop: seq<Item>, cur: Item): Outcome
    requires loop != []
  {
    if cur != loop[0] then Partial(loop + [cur]) else Raised(loop)
  }

  /** What every call does to the colors. */
  ghost predicate Shrinks(st: State, a: Found) {
    && a.st.visited.Keys == st.visited.Keys && a.st.With(Unvisited) <= st.With(Unvisited)
    && (a.r.NoLoop? ==> a.st.With(Active) == st.With(Active))
    && (a.r.Partial? ==> a.r.loop != [])
  }

  /** _check_dep_loop_sym() and _check_dep_loop_choice() */
  function Check(g: Graph, st: State, call: Call): (a: Found)
    ensures Shrinks(st, a)
    decreases st.With(Unvisited), 0
  {
    var it := call.Target();
    match st.ColorOf(it)
    case Checked => Found(NoLoop, st)
    case Active => Found(Partial([it]), st)
    case Unvisited =>
      assert it in st.With(Unvisited) && st.Enter(it).With(Unvisited) == st.With(Unvisited) - {it};
      assert st.Enter(it).With(Active) == st.With(Active) + {it};
      var a := CheckEach(g, st.Enter(it), it, Calls(g, call));
      if !a.r.NoLoop? then a else
      assert a.st.Leave(it).With(Active) == st.With(Active);
      assert a.st.Leave(it).With(Unvisited) <= a.st.With(Unvisited);
      Found(NoLoop, a.st.Leave(it))
  }

  /** The calls made for item 'it', up to the first one that finds a loop. */
  function CheckEach(g: Graph, st: State, it: Item, calls: seq<Call>): (a: Found)
    ensures Shrinks(st, a)
    decreases st.With(Unvisited), 1 + |calls|
  {
    if calls == [] then Found(NoLoop, st) else
    var a := Check(g, st, calls[0]);
    match a.r
    case NoLoop => CheckEach(g, a.st, it, calls[1..])
    case Partial(loop) => Found(FoundDepLoop(loop, it), a.st)
    case Raised(_) => a
  }

  /** The check of the defined symbols from 's' on. */
  function CheckFrom(g: Graph, st: State, s: nat): Found
    requires s <= |g.k.syms|
    decreases |g.k.syms| - s
  {
    if s == |g.k.syms| then Found(NoLoop, st) else
    var a := Check(g, st, SymCall(s, false));
    if a.r.NoLoop? then CheckFrom(g, a.st, s + 1) else a
  }

  /** Nothing has been visited. */
  function Start(k: Config): State {
    State(map x | x in AllItems(k) :: Unvisited, [])
  }

  lemma {:induction false} CheckEachConcat(g: Graph, st: State, it: Item, a: seq<Call>, b: seq<Call>)
    ensures var x := CheckEach(g, st, it, a);
            CheckEach(g, st, it, a + b) == if x.r.NoLoop? then CheckEach(g, x.st, it, b) else x
    decreases |a|
  {
    hide Check;
    if a == [] {
      assert a + b == b;
    } else {
      assert (a + b)[1..] == a[1..] + b;
      var y := Check(g, st, a[0]);
      if y.r.NoLoop? { CheckEachConcat(g, y.st, it, a[1..], b); }
    }
  }

  // Paths and loops

  /** The edges that the search follows: from a symbol to its dependents and to its
      choice, and from a choice to its symbols. */
  predicate Edge(g: Graph, x: Item, y: Item) {
    match x
    case SymItem(s) => y in g.Deps(x) || (y.ChItem? && g.Member(y.c, x))
    case ChItem(c) => y.SymItem? && y.s in g.k.Choice(c).syms
  }

  ghost predicate Distinct(p: seq<Item>) {
    forall i, j :: 0 <= i < j < |p| ==> p[i] != p[j]
  }

  /** A path, listed backwards: each item has an edge to the one before it in the list, and
      none occurs twice. */
  ghost predicate Path(g: Graph, p: seq<Item>) {
    p != [] && Distinct(p) && forall i :: 0 <= i < |p| - 1 ==> Edge(g, p[i + 1], p[i])
  }

  /** The item from which a loop comes to position 'i', and the one to which it goes on. */
  function From(loop: seq<Item>, i: nat): Item
    requires i < |loop|
  {
    if i + 1 < |loop| then loop[i + 1] else loop[0]
  }

  function To(loop: seq<Item>, i: nat): Item
    requires i < |loop|
  {
    if i > 0 then loop[i - 1] else loop[|loop| - 1]
  }

  /** A loop does not turn around in a choice: where it comes to a choice from a symbol that
      the choice does not depend on, but contains, it goes on to another symbol. */
  ghost predicate NoTurn(g: Graph, loop: seq<Item>) {
    forall i :: 0 <= i < |loop| && loop[i].ChItem? && From(loop, i).SymItem? && loop[i] !in g.Deps(From(loop, i)) ==>
      To(loop, i) != From(loop, i)
  }

  /** A dependency loop. */
  ghost predicate Loop(g: Graph, loop: seq<Item>) {
    Path(g, loop) && Edge(g, loop[0], loop[|loop| - 1]) && NoTurn(g, loop)
  }

  // Soundness: what is raised is a loop

  ghost predicate MadeBy(calls: seq<Call>, x: Item) {
    exists i :: 0 <= i < |calls| && calls[i].Target() == x
  }

  /** A partial loop is a path back to an active item. Its other items have been visited by this
      call, and its first step is one that the call makes. */
  ghost predicate PartialOk(g: Graph, st: State, call: Call, loop: seq<Item>) {
    && Path(g, loop) && loop[|loop| - 1] == call.Target() && loop[0] in st.With(Active)
    && (forall i :: 1 <= i < |loop| ==> loop[i] in st.With(Unvisited))
    && (|loop| > 1 ==> MadeBy(Calls(g, call), loop[|loop| - 2]))
  }

  ghost predicate Sound(g: Graph, st: State, call: Call, r: Outcome) {
    match r
    case NoLoop => true
    case Partial(loop) => PartialOk(g, st, call, loop)
    case Raised(loop) => Loop(g, loop)
  }

  lemma CallsAreEdges(g: Graph, call: Call, x: Item)
    requires MadeBy(Calls(g, call), x)
    ensures Edge(g, call.Target(), x)
    ensures call.SymCall? && call.ignoreChoice ==> x in g.Deps(call.Target())
    ensures call.ChCall? && call.skip.Some? ==> x != SymItem(call.skip.value)
  {
    var i :| 0 <= i < |Calls(g, call)| && Calls(g, call)[i].Target() == x;
    match call
    case SymCall(s, ignoreChoice) =>
      var deps := g.Deps(SymItem(s));
      if i < |deps| { assert x == deps[i]; }
    case ChCall(c, skip) => MemberCallsAre(g.k.Choice(c).syms, skip, i);
  }

  lemma {:induction false} MemberCallsAre(syms: seq<nat>, skip: Option<nat>, i: nat)
    requires i < |MemberCalls(syms, skip)|
    ensures var call := MemberCalls(syms, skip)[i];
            call.SymCall? && call.ignoreChoice && call.s in syms && Some(call.s) != skip
  {
    if Some(syms[0]) == skip {
      MemberCallsAre(syms[1..], skip, i);
    } else if i > 0 {
      MemberCallsAre(syms[1..], skip, i - 1);
    }
  }

  /** Longer loops than those of two items cannot turn around. */
  lemma LongLoopsDoNotTurn(g: Graph, loop: seq<Item>)
    requires Distinct(loop) && |loop| != 2
    requires |loop| == 1 ==> !Edge(g, loop[0], loop[0]) || loop[0].SymItem?
    ensures NoTurn(g, loop)
  {
  }

  /** On the way back through the item of 'outer', a partial loop grows or is complete. */
  lemma FoundIsSound(g: Graph, st: State, outer: Call, inner: Call, st': State, loop: seq<Item>)
    requires st.ColorOf(outer.Target()).Unvisited? && st'.With(Active) == st.With(Active) + {outer.Target()}
    requires st'.With(Unvisited) <= st.With(Unvisited) - {outer.Target()}
    requires PartialOk(g, st', inner, loop) && inner in Calls(g, outer)
    ensures Sound(g, st, outer, FoundDepLoop(loop, outer.Target()))
  {
    hide Edge, Calls;
    var it := outer.Target();
    assert MadeBy(Calls(g, outer), inner.Target());
    CallsAreEdges(g, outer, inner.Target());
    assert forall i :: 1 <= i < |loop| ==> loop[i] != it;
    if it != loop[0] {
      PathGrows(g, loop, it);
      assert (loop + [it])[|loop| - 1] == inner.Target();
    } else if |loop| == 2 {
      assert MadeBy(Calls(g, inner), loop[0]);
      CallsAreEdges(g, inner, it);
      InnerCalls(g, outer, inner);
      assert loop == [it, inner.Target()];
    } else {
      assert |loop| == 1 ==> it == inner.Target();
      LongLoopsDoNotTurn(g, loop);
    }
  }

  lemma PathGrows(g: Graph, loop: seq<Item>, it: Item)
    requires Path(g, loop) && Edge(g, it, loop[|loop| - 1]) && it !in loop
    ensures Path(g, loop + [it])
  {
    hide Edge;
  }

  /** How a call for a choice is made by one for a symbol, and the other way round. */
  lemma InnerCalls(g: Graph, outer: Call, inner: Call)
    requires inner in Calls(g, outer)
    ensures outer.ChCall? ==> inner.SymCall? && inner.ignoreChoice
    ensures outer.SymCall? && inner.ChCall? ==>
              inner.Target() in g.Deps(outer.Target()) || (!outer.ignoreChoice && inner.skip == Some(outer.s))
  {
    var i :| 0 <= i < |Calls(g, outer)| && Calls(g, outer)[i] == inner;
    match outer
    case SymCall(s, _) =>
      var deps := g.Deps(SymItem(s));
      if i < |deps| { assert inner.Target() == deps[i]; }
    case ChCall(c, skip) => MemberCallsAre(g.k.Choice(c).syms, skip, i);
  }

  lemma {:induction false} CheckIsSound(g: Graph, st: State, call: Call)
    ensures Sound(g, st, call, Check(g, st, call).r)
    decreases st.With(Unvisited), 0
  {
    hide Sound, CheckEach, Calls;
    var it := call.Target();
    match st.ColorOf(it)
    case Checked => NothingFound(g, st, call);
    case Active => BackAgain(g, st, call);
    case Unvisited =>
      assert st.Enter(it).With(Unvisited) == st.With(Unvisited) - {it} && it in st.With(Unvisited);
      assert st.Enter(it).With(Active) == st.With(Active) + {it};
      var calls := Calls(g, call);
      CheckEachIsSound(g, st, call, st.Enter(it), calls, 0);
      assert calls[0..] == calls;
      if CheckEach(g, st.Enter(it), it, calls).r.NoLoop? { NothingFound(g, st, call); }
  }

  lemma NothingFound(g: Graph, st: State, call: Call)
    ensures Sound(g, st, call, NoLoop)
  {
  }

  lemma BackAgain(g: Graph, st: State, call: Call)
    requires st.ColorOf(call.Target()).Active?
    ensures Sound(g, st, call, Partial([call.Target()]))
  {
  }

  lemma {:induction false} CheckEachIsSound(g: Graph, st: State, outer: Call, st': State, calls: seq<Call>, i: nat)
    requires st.ColorOf(outer.Target()).Unvisited? && st'.With(Active) == st.With(Active) + {outer.Target()}
    requires st'.With(Unvisited) <= st.With(Unvisited) - {outer.Target()}
    requires calls == Calls(g, outer) && i <= |calls|
    ensures Sound(g, st, outer, CheckEach(g, st', outer.Target(), calls[i..]).r)
    decreases st'.With(Unvisited), 1 + |calls| - i
  {
    hide Calls, Check;
    if i == |calls| {
      NothingFound(g, st, outer);
    } else {
      var a := Check(g, st', calls[i]);
      assert calls[i..][0] == calls[i] && calls[i..][1..] == calls[i + 1..];
      CheckIsSound(g, st', calls[i]);
      match a.r
      case NoLoop => CheckEachIsSound(g, st, outer, a.st, calls, i + 1);
      case Partial(loop) => FoundIsSound(g, st, outer, calls[i], st', loop);
      case Raised(loop) =>
    }
  }
}
