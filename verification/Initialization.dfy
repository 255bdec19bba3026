/** The end of Kconfig initialization: building the dependency graph, checking it for
    loops, and setting up the instance. */
module Initialization {
  import opened Wrappers
  import opened Expressions
  import opened Evaluation
  import opened Semantics
  import opened Dependencies
  import opened DependencyGraphs
  import opened Inputs
  import opened LoopSearch
  import opened LoopCompleteness
  import opened LoopExactness
  import opened LoopCheck
  import opened Termination
  import opened Engine

  /** No symbol of a choice leads to an earlier one, in whatever order dependents are visited. */
  ghost predicate NeverBack(k: Config) {
    forall g: Graph :: g.k == k && Arranged(g) ==> NoWayBack(g)
  }

  /** The items of a set in some order, such as a loop over a Python set goes over them. */
  method ListOf(items: set<Item>) returns (xs: seq<Item>)
    ensures forall x :: x in xs <==> x in items
  {
    xs := [];
    var left := items;
    while left != {}
      invariant left <= items && forall x :: x in xs <==> x in items - left
    {
      var x :| x in left;
      xs, left := xs + [x], left - {x};
    }
  }

  method ListAll(deps: map<Item, set<Item>>) returns (after: map<Item, seq<Item>>)
    ensures after.Keys == deps.Keys
    ensures forall j :: j in deps ==> forall i :: i in after[j] <==> i in deps[j]
  {
    after := map[];
    var left := deps.Keys;
    while left != {}
      invariant left <= deps.Keys && after.Keys == deps.Keys - left
      invariant forall j :: j in after ==> forall i :: i in after[j] <==> i in deps[j]
    {
      var j :| j in left;
      var xs := ListOf(deps[j]);
      after, left := after[j := xs], left - {j};
    }
  }

  lemma ListsAreArranged(k: Config, deps: map<Item, set<Item>>, after: map<Item, seq<Item>>)
    requires deps.Keys == AllItems(k) && forall j :: j in deps ==> deps[j] == Mentioning(k, AllItems(k), j)
    requires after.Keys == deps.Keys && forall j :: j in deps ==> forall i :: i in after[j] <==> i in deps[j]
    ensures Arranged(Graph(k, after))
  {
    hide ItemExprs, Mentions, AllItems;
  }

  lemma CompletedAfter(g: Graph)
    requires Arranged(g) && WellFormed(g.k) && Paired(g.k) && NestedOk(g.k) && NoWayBack(g)
    requires CheckFrom(g, Start(g.k), 0).r.NoLoop?
    ensures Completed(g, CheckFrom(g, Start(g.k), 0).st.order)
  {
    hide Arranged, Paired, NestedOk, NoWayBack, Finished, CheckFrom;
    ArrangedIsOk(g);
    StartOk(g);
    CheckFromIsComplete(g, Start(g.k), 0);
  }

  /** Setting up an instance succeeds if and only if there is no dependency loop, and what
      succeeds is a valid instance: all of its properties can be evaluated, and its caches are
      coherent from the start. */
  method Init(k: Config, ghost apart: set<nat>) returns (r: Outcome, kconf: Kconfig?, ghost g: Graph)
    requires WellFormed(k) && Paired(k) && NestedOk(k) && ModulesApart(k, apart) && NeverBack(k)
    ensures Arranged(g) && g.k == k
    ensures r.NoLoop? <==> !exists loop :: Loop(g, loop)
    ensures r.NoLoop? <==> kconf != null
    ensures kconf != null ==> fresh(kconf) && kconf.Valid() && kconf.k == k && kconf.input == NoInput(k)
    ensures kconf == null ==> r.Raised? && Loop(g, r.loop)
  {
    hide ItemExprs, Mentions, Closed, Ranked, ModulesApart, ChoicesOk, Mentioning, AllItems, Arranged, GraphOk, Paired,
      NestedOk, NoWayBack, Loop, CheckFrom, Completed, LoopCheckRank, InputOk;
    kconf := null;
    var graph := new DependencyGraph(k);
    graph.BuildDep(k);
    var after := ListAll(graph.dependents);
    g := Graph(k, after);
    ListsAreArranged(k, graph.dependents, after);
    ArrangedIsOk(g);
    var checker := new LoopChecker(Graph(k, after));
    r := checker.CheckAll();
    if r.NoLoop? {
      CompletedAfter(g);
      EvaluationTerminates(g, checker.order, apart);
      kconf := new Kconfig(k, LoopCheckRank(g, checker.order, apart));
    }
  }
}
