/** The walk over the finalized menu tree that follows the links of the nodes without a stack,
    in node_iter() and in _config_contents(). */
module MenuWalk {
  import opened Wrappers
  import opened Expressions
  import opened MenuTree
  import opened MenuNodes

  /** What a walk does when it comes to a node, and when it goes up to a node again from
      its last child. */
  datatype Visitor<!D> = Visitor(visit: (MenuNode, Props, D) -> D, leave: (MenuNode, Props, D) -> D)

  /** A walk over trees by recursion: each node, then its children, then the next node. */
  function Walk<D>(v: Visitor<D>, ts: Forest, d: D): D {
    if ts == [] then d else
    var d1 := v.visit(ts[0].node, ts[0].props, d);
    var d2 := if ts[0].kids == [] then d1 else v.leave(ts[0].node, ts[0].props, Walk(v, ts[0].kids, d1));
    Walk(v, ts[1..], d2)
  }

  // A place in the tree

  /** A node with its later siblings. */
  datatype Place = Place(t: Tree<MenuNode>, later: Forest)

  /** A node, its parent, and so on up to the top node. */
  type Path = seq<Place>

  ghost predicate Placed(p: Place, parent: MenuNode?)
    reads Nodes([p.t] + p.later)
  {
    Linked([p.t] + p.later, parent, null)
  }

  function ParentOf(path: Path, i: nat): MenuNode?
    requires i < |path|
  {
    if i + 1 < |path| then path[i + 1].t.node else null
  }

  /** The nodes on the path are linked like this. The objects are named in 'all'. */
  ghost predicate OnPath(path: Path, all: set<MenuNode>)
    reads all
  {
    forall i :: 0 <= i < |path| ==> Nodes([path[i].t] + path[i].later) <= all && Placed(path[i], ParentOf(path, i))
  }

  function Start(ts: Forest): Place
    requires ts != []
  {
    Place(ts[0], ts[1..])
  }

  /** Up until there is a later sibling. */
  function Climb(path: Path): Path
    requires path != []
  {
    if |path| == 1 then []
    else if path[1].later != [] then [Start(path[1].later)] + path[2..]
    else Climb(path[1..])
  }

  function Next(path: Path): Path
    requires path != []
  {
    if path[0].t.kids != [] then [Start(path[0].t.kids)] + path
    else if path[0].later != [] then [Start(path[0].later)] + path[1..]
    else Climb(path)
  }

  /** The nodes still to come below and after the first node of the path. */
  function Pending(path: Path): nat {
    if path == [] then 0 else Size(path[0].t.kids) + PendingAfter(path)
  }

  function PendingAfter(path: Path): nat {
    if path == [] then 0 else Size(path[0].later) + PendingAfter(path[1..])
  }

  lemma {:induction false} ClimbIsSmaller(path: Path)
    requires path != []
    ensures Climb(path) != [] ==> Pending(Climb(path)) < PendingAfter(path)
    ensures Climb(path) == [] || |Climb(path)| < |path|
  {
    if |path| == 1 {
    } else if path[1].later != [] {
      var next := [Start(path[1].later)] + path[2..];
      assert next[1..] == path[2..] == path[1..][1..];
      SizeDrop(path[1].later, 1);
    } else {
      ClimbIsSmaller(path[1..]);
    }
  }

  lemma NextIsSmaller(path: Path)
    requires path != []
    ensures Next(path) != [] ==> Pending(Next(path)) < Pending(path)
  {
    ClimbIsSmaller(path);
    var next := Next(path);
    if path[0].t.kids != [] {
      assert next[1..] == path;
    } else if path[0].later != [] {
      assert next[1..] == path[1..];
    }
  }

  // What is left to do

  /** The rest of the walk once everything below the first node of the path is done. */
  function After<D>(v: Visitor<D>, path: Path, d: D): D {
    if path == [] then d else
    var d1 := Walk(v, path[0].later, d);
    if |path| == 1 then d1 else After(v, path[1..], v.leave(path[1].t.node, path[1].t.props, d1))
  }

  /** The rest of the walk once the first node of the path is done. */
  function Rest<D>(v: Visitor<D>, path: Path, d: D): D
    requires path != []
  {
    var t := path[0].t;
    After(v, path, if t.kids == [] then d else v.leave(t.node, t.props, Walk(v, t.kids, d)))
  }

  /** What is written on the way up. */
  function ClimbDoc<D>(v: Visitor<D>, path: Path, d: D): D
    requires path != []
  {
    if |path| == 1 then d else
    var d1 := v.leave(path[1].t.node, path[1].t.props, d);
    if path[1].later != [] then d1 else ClimbDoc(v, path[1..], d1)
  }

  lemma {:induction false} ClimbKeepsRest<D>(v: Visitor<D>, path: Path, d: D)
    requires path != [] && path[0].later == []
    ensures var next, d' := Climb(path), ClimbDoc(v, path, d);
            After(v, path, d) == if next == [] then d' else Rest(v, next, v.visit(next[0].t.node, next[0].t.props, d'))
  {
    if |path| > 1 {
      var d1 := v.leave(path[1].t.node, path[1].t.props, d);
      if path[1].later != [] {
        var next := [Start(path[1].later)] + path[2..];
        assert next[1..] == path[2..] == path[1..][1..];
      } else {
        ClimbKeepsRest(v, path[1..], d1);
      }
    }
  }

  /** Each step of the walk leaves exactly the rest of the walk to do. */
  lemma NextKeepsRest<D>(v: Visitor<D>, path: Path, d: D)
    requires path != []
    ensures var next := Next(path);
            var d' := if path[0].t.kids == [] && path[0].later == [] then ClimbDoc(v, path, d) else d;
            Rest(v, path, d) == if next == [] then d' else Rest(v, next, v.visit(next[0].t.node, next[0].t.props, d'))
  {
    if path[0].t.kids != [] {
      var next := [Start(path[0].t.kids)] + path;
      assert next[1..] == path;
    } else if path[0].later != [] {
      var next := [Start(path[0].later)] + path[1..];
      assert next[1..] == path[1..];
    } else {
      ClimbKeepsRest(v, path, d);
    }
  }

  // Following the links

  lemma OpenPlace(path: Path, all: set<MenuNode>)
    requires path != [] && OnPath(path, all)
    ensures var t, node := path[0].t, path[0].t.node;
            && node in all && node.props == t.props && node.parent == ParentOf(path, 0)
            && node.list == First(t.kids, null) && node.next == First(path[0].later, null)
  {
    assert ([path[0].t] + path[0].later)[1..] == path[0].later;
    assert Placed(path[0], ParentOf(path, 0));
  }

  lemma UpIsOnPath(path: Path, all: set<MenuNode>)
    requires path != [] && OnPath(path, all)
    ensures OnPath(path[1..], all)
  {
    forall i | 0 <= i < |path[1..]|
      ensures Nodes([path[1..][i].t] + path[1..][i].later) <= all && Placed(path[1..][i], ParentOf(path[1..], i))
    {
      assert ParentOf(path[1..], i) == ParentOf(path, i + 1);
      assert Placed(path[i + 1], ParentOf(path, i + 1));
    }
  }

  /** Siblings below the first node of the path. */
  lemma DownIsOnPath(ts: Forest, path: Path, all: set<MenuNode>)
    requires ts != [] && OnPath(path, all) && Nodes(ts) <= all
    requires Linked(ts, if path == [] then null else path[0].t.node, null)
    ensures OnPath([Start(ts)] + path, all)
  {
    hide Linked, Nodes;
    var next := [Start(ts)] + path;
    assert [ts[0]] + ts[1..] == ts;
    forall i | 0 <= i < |next| ensures Nodes([next[i].t] + next[i].later) <= all && Placed(next[i], ParentOf(next, i)) {
      if i > 0 { assert Placed(path[i - 1], ParentOf(path, i - 1)); }
    }
  }

  lemma LaterIsOnPath(path: Path, all: set<MenuNode>)
    requires path != [] && OnPath(path, all) && path[0].later != []
    ensures OnPath([Start(path[0].later)] + path[1..], all)
  {
    var ts := [path[0].t] + path[0].later;
    assert Placed(path[0], ParentOf(path, 0)) && ts[1..] == path[0].later;
    UpIsOnPath(path, all);
    DownIsOnPath(path[0].later, path[1..], all);
  }

  lemma KidsAreOnPath(path: Path, all: set<MenuNode>)
    requires path != [] && OnPath(path, all) && path[0].t.kids != []
    ensures OnPath([Start(path[0].t.kids)] + path, all)
  {
    assert Placed(path[0], ParentOf(path, 0));
    DownIsOnPath(path[0].t.kids, path, all);
  }

  /** The inner loop of the walk: up from a node without later siblings. */
  method ClimbUp<D>(v: Visitor<D>, start: MenuNode, d0: D, ghost path: Path, ghost all: set<MenuNode>)
    returns (next: MenuNode?, d: D)
    requires path != [] && OnPath(path, all) && start == path[0].t.node && path[0].later == []
    ensures d == ClimbDoc(v, path, d0)
    ensures if Climb(path) == [] then next == null
            else OnPath(Climb(path), all) && next == Climb(path)[0].t.node
  {
    hide OnPath;
    var node := start;
    d := d0;
    ghost var p := path;
    OpenPlace(p, all);
    while node.parent != null
      invariant p != [] && OnPath(p, all) && node == p[0].t.node && node.parent == ParentOf(p, 0)
      invariant ClimbDoc(v, p, d) == ClimbDoc(v, path, d0) && Climb(p) == Climb(path)
      decreases |p|
    {
      UpIsOnPath(p, all);
      OpenPlace(p[1..], all);
      node := node.parent;
      d := v.leave(node, node.props, d);
      if node.next != null {
        LaterIsOnPath(p[1..], all);
        assert p[1..][1..] == p[2..];
        return node.next, d;
      }
      p := p[1..];
    }
    next := null;
  }

  /** The walk of node_iter() and _config_contents(), from the top node. It ends, and comes
      to each node once, as the walk by recursion does. */
  method FollowLinks<D>(v: Visitor<D>, top: MenuNode, d0: D, ghost t: Tree<MenuNode>) returns (d: D)
    requires top == t.node && Linked([t], null, null)
    requires forall p, x :: v.leave(top, p, x) == x
    ensures d == Walk(v, t.kids, d0)
  {
    hide OnPath, Next;
    var node := top;
    d := d0;
    ghost var all, path := Nodes([t]), [Place(t, [])];
    TopIsOnPath(t);
    while true
      invariant path != [] && OnPath(path, all) && node == path[0].t.node
      invariant Rest(v, path, d) == Walk(v, t.kids, d0)
      decreases Pending(path)
    {
      OpenPlace(path, all);
      NextIsSmaller(path);
      NextKeepsRest(v, path, d);
      NextIs(path);
      if node.list != null {
        KidsAreOnPath(path, all);
        node := node.list;
      } else if node.next != null {
        LaterIsOnPath(path, all);
        node := node.next;
      } else {
        var next;
        next, d := ClimbUp(v, node, d, path, all);
        if next == null { return; }
        node := next;
      }
      path := Next(path);
      OpenPlace(path, all);
      d := v.visit(node, node.props, d);
    }
  }

  lemma NextIs(path: Path)
    requires path != []
    ensures Next(path) ==
            if path[0].t.kids != [] then [Start(path[0].t.kids)] + path
            else if path[0].later != [] then [Start(path[0].later)] + path[1..]
            else Climb(path)
  {
  }

  lemma TopIsOnPath(t: Tree<MenuNode>)
    requires Linked([t], null, null)
    ensures OnPath([Place(t, [])], Nodes([t]))
  {
    assert [t] + [] == [t];
  }
}
