/** When the loop check is exact: it completes if and only if there is no dependency loop,
    unless a symbol of a choice leads to an earlier symbol of the same choice. */
module LoopExactness {
  import opened Wrappers
  import opened Expressions
  import opened Evaluation
  import opened Semantics
  import opened Dependencies
  import opened LoopSearch
  import opened LoopCompleteness

  /** What is known of the order in which items were finished, when the check has completed. */
  ghost predicate Finished(g: Graph, order: seq<Item>) {
    && Recorded(g, order) && (forall x :: x in order ==> x in AllItems(g.k))
    && (forall s :: 0 <= s < |g.k.syms| ==> SymItem(s) in order)
    && (forall x, c: nat {:trigger g.Member(c, x)} :: x in order && g.Member(c, x) ==> ChItem(c) in order)
  }

  lemma StartOk(g: Graph)
    requires GraphOk(g)
    ensures StateOk(g, Start(g.k)) && ChoicesDone(g, Start(g.k), None) && Start(g.k).With(Active) == {}
  {
  }

  /** No call from outside returns a partial loop, and what is raised is a loop. */
  lemma {:induction false} CheckFromIsSound(g: Graph, st: State, s: nat)
    requires s <= |g.k.syms| && st.With(Active) == {}
    ensures var r := CheckFrom(g, st, s).r; !r.Partial? && (r.Raised? ==> Loop(g, r.loop))
    decreases |g.k.syms| - s
  {
    hide Loop, Path, Check;
    if s == |g.k.syms| {
    } else {
      var a := Check(g, st, SymCall(s, false));
      CheckIsSound(g, st, SymCall(s, false));
      if a.r.NoLoop? { CheckFromIsSound(g, a.st, s + 1); }
    }
  }

  lemma {:induction false} CheckFromIsComplete(g: Graph, st: State, s: nat)
    requires GraphOk(g) && Paired(g.k) && StateOk(g, st) && ChoicesDone(g, st, None) && st.With(Active) == {}
    requires s <= |g.k.syms| && (forall t :: 0 <= t < s ==> SymItem(t) in st.order) && CheckFrom(g, st, s).r.NoLoop?
    ensures Finished(g, CheckFrom(g, st, s).st.order)
    decreases |g.k.syms| - s
  {
    hide StateOk, ChoicesDone, Check, Done, GraphOk, Paired, Finished, Visited;
    if s == |g.k.syms| {
      AllFinished(g, st);
    } else {
      var call := SymCall(s, false);
      var a := Check(g, st, call);
      SymIsReady(g, st, s);
      CheckDone(g, st, call);
      DoneIsOk(g, st, call, a.st);
      CheckFromIsComplete(g, a.st, s + 1);
    }
  }

  lemma SymIsReady(g: Graph, st: State, s: nat)
    requires StateOk(g, st) && ChoicesDone(g, st, None) && s < |g.k.syms|
    ensures Ready(g, st, SymCall(s, false))
  {
    hide StateOk, ChoicesDone;
  }

  lemma AllFinished(g: Graph, st: State)
    requires GraphOk(g) && StateOk(g, st) && st.With(Active) == {}
    requires forall t :: 0 <= t < |g.k.syms| ==> SymItem(t) in st.order
    ensures Finished(g, st.order)
  {
    hide Recorded;
    forall x, c: nat {:trigger g.Member(c, x)} | x in st.order && g.Member(c, x) ensures ChItem(c) in st.order {
      assert ChItem(c) in st.visited;
      assert ChItem(c) !in st.With(Active) && ChItem(c) !in st.With(Unvisited);
    }
  }

  // Positions

  /** The first position of an item. */
  ghost function Pos(order: seq<Item>, x: Item): (i: nat)
    requires x in order
    ensures i < |order| && order[i] == x && x !in order[..i]
  {
    if order[0] == x then 0 else
    var i := Pos(order[1..], x);
    assert forall y :: y in order[..i + 1] ==> y == order[0] || y in order[1..][..i];
    i + 1
  }

  lemma EarlierPos(order: seq<Item>, i: nat, y: Item)
    requires i <= |order| && y in order[..i]
    ensures y in order && Pos(order, y) < i
  {
    assert order[..i] <= order;
    var p := Pos(order, y);
    forall q | 0 <= q < p ensures order[q] != y { assert order[q] in order[..p]; }
  }

  lemma LaterPos(order: seq<Item>, i: nat, y: Item)
    requires i < |order| && y in order && y !in order[..i] && y != order[i]
    ensures i < Pos(order, y)
  {
    forall q | 0 <= q < i ensures order[q] != y { assert order[q] in order[..i]; }
  }

  /** A choice with its symbols, or a symbol outside of choices, counts as one place: that of
      the choice. */
  function Place(g: Graph, x: Item): Item {
    if x.SymItem? && g.k.Sym(x.s).choice.Some? then ChItem(g.k.Sym(x.s).choice.value) else x
  }

  ghost predicate NoWayBack(g: Graph) {
    forall c :: 0 <= c < |g.k.choices| ==> !LeadsBack(g, c)
  }

  /** An edge between a choice and its symbols that is not a dependency. */
  predicate Inner(g: Graph, x: Item, y: Item) {
    (y.ChItem? && g.Member(y.c, x) && y !in g.Deps(x)) || (x.ChItem? && g.Member(x.c, y))
  }

  ghost function PlacePos(g: Graph, order: seq<Item>, x: Item): nat {
    if Place(g, x) in order then Pos(order, Place(g, x)) else |order|
  }

  /** What a dependency of a symbol does to positions: the dependent has an earlier place. */
  lemma DependentIsEarlier(g: Graph, order: seq<Item>, x: Item, y: Item)
    requires GraphOk(g) && Finished(g, order) && NoWayBack(g) && x in order && x.SymItem? && y in g.Deps(x)
    ensures Place(g, x) in order && Place(g, y) in order && y in order && PlacePos(g, order, y) < PlacePos(g, order, x)
  {
    hide GraphOk, NoWayBack, Finished;
    SymbolRecord(g, order, x, y);
    PlaceInOrder(g, order, x);
    PlaceInOrder(g, order, y);
    var px, py := Place(g, x), Place(g, y);
    var i := Pos(order, px);
    if px == x {
      EarlierPos(order, i, y);
    } else {
      ChoiceRecord(g, order, px.c, x, y);
      EarlierPos(order, i, y);
    }
    assert Pos(order, y) < i;
    if py != y {
      var j := Pos(order, py);
      ChoiceKeepsOut(g, order, py.c, x, y);
      if px == x {
        LaterPos(order, j, x);
      } else {
        OtherChoice(g, order, px.c, py.c, x, y);
        LaterPos(order, j, px);
      }
    }
  }

  lemma PlaceInOrder(g: Graph, order: seq<Item>, x: Item)
    requires Finished(g, order) && x in order
    ensures Place(g, x) in order
  {
    if Place(g, x) != x { assert g.Member(Place(g, x).c, x); }
  }

  lemma SymbolRecord(g: Graph, order: seq<Item>, x: Item, y: Item)
    requires Finished(g, order) && x in order && x.SymItem? && y in g.Deps(x)
    ensures y in order[..Pos(order, x)] && y in order
  {
    hide Settled;
    var i := Pos(order, x);
    assert FinishedWell(g, order[..i], order[i]);
    assert order[..i] <= order;
  }

  /** The dependents of the symbols of a choice are finished before it. */
  lemma ChoiceRecord(g: Graph, order: seq<Item>, c: nat, x: Item, y: Item)
    requires Finished(g, order) && ChItem(c) in order && g.Member(c, x) && y in g.Deps(x)
    ensures y in order[..Pos(order, ChItem(c))]
  {
    var i := Pos(order, ChItem(c));
    assert FinishedWell(g, order[..i], order[i]);
  }

  /** What a symbol of a choice depends on is finished later than the choice, and is not in it. */
  lemma ChoiceKeepsOut(g: Graph, order: seq<Item>, c: nat, x: Item, y: Item)
    requires Finished(g, order) && NoWayBack(g) && ChItem(c) in order && x.SymItem? && g.Member(c, y) && y in g.Deps(x)
    ensures x !in order[..Pos(order, ChItem(c))] && !g.Member(c, x)
  {
    var i := Pos(order, ChItem(c));
    assert FinishedWell(g, order[..i], order[i]);
    assert !LeadsBack(g, c);
  }

  /** ... and if it is in another choice, that is finished later as well. */
  lemma OtherChoice(g: Graph, order: seq<Item>, d: nat, c: nat, x: Item, y: Item)
    requires Finished(g, order) && ChItem(c) in order && ChItem(d) in order && g.Member(d, x) && g.Member(c, y) && c != d
    requires x !in order[..Pos(order, ChItem(c))]
    ensures ChItem(d) !in order[..Pos(order, ChItem(c))] && ChItem(d) != ChItem(c)
  {
    var i := Pos(order, ChItem(c));
    assert FinishedWell(g, order[..i], order[i]);
  }

  /** Along the edges of a loop, places get earlier, except between a choice and its symbols. */
  lemma EdgesDescend(g: Graph, order: seq<Item>, x: Item, y: Item)
    requires GraphOk(g) && Paired(g.k) && Finished(g, order) && NoWayBack(g) && Edge(g, x, y)
    ensures Inner(g, x, y) || PlacePos(g, order, y) < PlacePos(g, order, x)
    ensures Inner(g, x, y) ==> Place(g, x) == Place(g, y)
  {
    hide Finished, NoWayBack;
    if x.ChItem? {
      assert g.Member(x.c, y);
    } else if y in g.Deps(x) {
      SymInOrder(g, order, x);
      DependentIsEarlier(g, order, x, y);
    }
  }

  lemma SymInOrder(g: Graph, order: seq<Item>, x: Item)
    requires Finished(g, order) && x in AllItems(g.k) && x.SymItem?
    ensures x in order
  {
  }

  lemma {:induction false} LoopClimbs(g: Graph, order: seq<Item>, loop: seq<Item>, i: nat)
    requires GraphOk(g) && Paired(g.k) && Finished(g, order) && NoWayBack(g) && Loop(g, loop) && i < |loop|
    ensures PlacePos(g, order, loop[0]) <= PlacePos(g, order, loop[i]) <= PlacePos(g, order, loop[|loop| - 1])
    decreases i
  {
    hide GraphOk, Paired, Finished, NoWayBack, Inner, Edge, Place, NoTurn;
    LoopTop(g, order, loop, i);
    if i == 0 {
    } else {
      LoopClimbs(g, order, loop, i - 1);
      assert Edge(g, loop[i - 1 + 1], loop[i - 1]);
      EdgesDescend(g, order, loop[i], loop[i - 1]);
    }
  }

  lemma {:induction false} LoopTop(g: Graph, order: seq<Item>, loop: seq<Item>, i: nat)
    requires GraphOk(g) && Paired(g.k) && Finished(g, order) && NoWayBack(g) && Loop(g, loop) && i < |loop|
    ensures PlacePos(g, order, loop[i]) <= PlacePos(g, order, loop[|loop| - 1])
    decreases |loop| - i
  {
    hide GraphOk, Paired, Finished, NoWayBack, Inner, Edge, Place, NoTurn;
    if i == |loop| - 1 {
    } else {
      LoopTop(g, order, loop, i + 1);
      assert Edge(g, loop[i + 1], loop[i]);
      EdgesDescend(g, order, loop[i + 1], loop[i]);
    }
  }

  /** So all edges of a loop are between a choice and its symbols, ... */
  lemma LoopIsInner(g: Graph, order: seq<Item>, loop: seq<Item>, i: nat)
    requires GraphOk(g) && Paired(g.k) && Finished(g, order) && NoWayBack(g) && Loop(g, loop) && i < |loop|
    ensures Inner(g, loop[i], To(loop, i))
  {
    hide GraphOk, Paired, Finished, NoWayBack, Inner, Edge, Place, NoTurn;
    EdgesDescend(g, order, loop[0], loop[|loop| - 1]);
    LoopClimbs(g, order, loop, i);
    if i > 0 {
      LoopClimbs(g, order, loop, i - 1);
      assert Edge(g, loop[i - 1 + 1], loop[i - 1]);
      EdgesDescend(g, order, loop[i], loop[i - 1]);
    }
  }

  /** ... which is impossible without turning around. */
  lemma NoLoopIsLeft(g: Graph, order: seq<Item>, loop: seq<Item>)
    requires GraphOk(g) && Paired(g.k) && Finished(g, order) && NoWayBack(g)
    ensures !Loop(g, loop)
  {
    hide GraphOk, Paired, Finished, NoWayBack, Edge, Place;
    if Loop(g, loop) {
      var n := |loop|;
      LoopIsInner(g, order, loop, 0);
      LoopIsInner(g, order, loop, n - 1);
      if n > 1 { LoopIsInner(g, order, loop, n - 2); LoopIsInner(g, order, loop, 1); }
    }
  }

  /** A symbol that leads to an earlier one of its choice is on a loop through the choice. */
  lemma WayBackIsLoop(g: Graph, c: nat) returns (loop: seq<Item>)
    requires Paired(g.k) && LeadsBack(g, c)
    ensures Loop(g, loop)
  {
    var syms := g.k.Choice(c).syms;
    var i, j :| 0 <= i < j < |syms| && Leads(g, c, SymItem(syms[j]), SymItem(syms[i]));
    assert syms[i] in syms && syms[j] in syms;
    var p :| Path(g, p) && |p| > 1 && p[|p| - 1] == SymItem(syms[j]) && p[0] == SymItem(syms[i]) && ChItem(c) !in p;
    loop := p + [ChItem(c)];
    assert Edge(g, ChItem(c), SymItem(syms[j])) && Edge(g, SymItem(syms[i]), ChItem(c));
    LongLoopsDoNotTurn(g, loop);
  }

  /** What the check of all symbols finds. It never ends with a partial loop, and what it
      raises is a loop. If it completes, there is a loop if and only if a symbol of a choice
      leads to an earlier one. So where none does, it completes exactly if there is no loop. */
  lemma CheckIsExact(g: Graph)
    requires GraphOk(g) && Paired(g.k)
    ensures var r := CheckFrom(g, Start(g.k), 0).r;
            && !r.Partial? && (r.Raised? ==> Loop(g, r.loop))
            && (r.NoLoop? ==> ((exists loop :: Loop(g, loop)) <==> !NoWayBack(g)))
            && (NoWayBack(g) ==> (r.NoLoop? <==> !exists loop :: Loop(g, loop)))
  {
    hide GraphOk, Paired, Loop, LeadsBack;
    var a := CheckFrom(g, Start(g.k), 0);
    StartOk(g);
    CheckFromIsSound(g, Start(g.k), 0);
    if a.r.NoLoop? {
      CheckFromIsComplete(g, Start(g.k), 0);
      if NoWayBack(g) {
        forall loop ensures !Loop(g, loop) { NoLoopIsLeft(g, a.st.order, loop); }
      } else {
        var c :| 0 <= c < |g.k.choices| && LeadsBack(g, c);
        var loop := WayBackIsLoop(g, c);
      }
    }
  }

  // Loops of symbols alone

  /** Along a loop of symbols, positions increase in the order in which it is listed. */
  lemma {:induction false} SymbolsClimb(g: Graph, order: seq<Item>, loop: seq<Item>, i: nat)
    requires GraphOk(g) && Finished(g, order) && Loop(g, loop) && (forall x :: x in loop ==> x.SymItem?) && i < |loop|
    ensures loop[0] in order && loop[i] in order && Pos(order, loop[0]) <= Pos(order, loop[i])
  {
    hide GraphOk, Finished, NoTurn;
    SymbolOnLoop(g, order, loop, i);
    if i == 0 {
    } else {
      SymbolsClimb(g, order, loop, i - 1);
      assert Edge(g, loop[i - 1 + 1], loop[i - 1]);
      SymbolRecord(g, order, loop[i], loop[i - 1]);
      EarlierPos(order, Pos(order, loop[i]), loop[i - 1]);
    }
  }

  lemma SymbolOnLoop(g: Graph, order: seq<Item>, loop: seq<Item>, i: nat)
    requires GraphOk(g) && Finished(g, order) && Loop(g, loop) && (forall x :: x in loop ==> x.SymItem?) && i < |loop|
    ensures loop[i] in order
  {
    hide Recorded, NoTurn;
    assert loop[i] in loop && To(loop, i) in loop;
    assert i > 0 ==> Edge(g, loop[i - 1 + 1], loop[i - 1]);
    assert To(loop, i) in g.Deps(loop[i]);
  }

  /** Every loop that the check misses runs through a choice, whatever the order. */
  lemma MissedLoopsHaveChoices(g: Graph, loop: seq<Item>)
    requires GraphOk(g) && Paired(g.k) && CheckFrom(g, Start(g.k), 0).r.NoLoop? && Loop(g, loop)
    ensures exists x: Item :: x in loop && x.ChItem?
  {
    hide GraphOk, Paired, Finished, NoTurn, CheckFrom;
    if forall x :: x in loop ==> x.SymItem? {
      StartOk(g);
      CheckFromIsComplete(g, Start(g.k), 0);
      var order := CheckFrom(g, Start(g.k), 0).st.order;
      var n := |loop|;
      SymbolsClimb(g, order, loop, n - 1);
      assert loop[0] in loop && loop[n - 1] in loop;
      SymbolRecord(g, order, loop[0], loop[n - 1]);
      EarlierPos(order, Pos(order, loop[0]), loop[n - 1]);
    }
  }
}
