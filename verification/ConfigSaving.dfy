/** _config_contents(), as it asks the memoised properties of the instance for what it writes. */
module ConfigSaving {
  import opened Wrappers
  import opened Expressions
  import opened Evaluation
  import opened Semantics
  import opened Dependencies
  import opened Inputs
  import opened ConfigText
  import opened Loading
  import opened RoundTrip
  import opened ValueLaws
  import opened MenuTree
  import opened MenuNodes
  import opened MenuOrder
  import opened MenuWalk
  import opened Engine
  import opened ConfigFile

  ghost function SavedText(k: Config, u: Input, rk: Rank, s: nat): Option<string> {
    if s in FullKeep(k, u, rk) then Some(ConfigString(k.Sym(s), StrOf(k, u, rk, s))) else None
  }

  /** What is written, in terms of evaluation from scratch. */
  ghost function ValuesWriter(k: Config, u: Input, rk: Rank, top: MenuNode): Writer {
    Writer(top, (s: nat) => SavedText(k, u, rk, s), e => ExprOf(k, u, rk, e) != 0)
  }

  /** The node refers to symbols and choices of the configuration only. */
  predicate Known(k: Config, p: Props) {
    (p.item.SymNode? ==> p.item.s < |k.syms|) && ExprItems(p.dep) <= AllItems(k) && ExprItems(p.visibility) <= AllItems(k)
  }

  ghost function Above(rk: Rank, slots: set<Slot>): (n: nat)
    ensures forall r :: r in slots ==> RankOf(rk, r) < n
  {
    if slots == {} then 0 else
    var r :| r in slots;
    var n := Above(rk, slots - {r});
    assert slots == (slots - {r}) + {r};
    if RankOf(rk, r) < n then n else RankOf(rk, r) + 1
  }

  method Holds(kconf: Kconfig, e: Expr) returns (b: bool)
    requires kconf.Valid() && ExprItems(e) <= AllItems(kconf.k)
    modifies kconf`live, kconf`vis, kconf.syms, kconf.choices
    ensures kconf.Kept() && b == (ExprOf(kconf.k, kconf.input, kconf.rk, e) != 0)
  {
    var t := kconf.ExprValue(e, Above(kconf.rk, ExprSlots(e)));
    b := t != 0;
  }

  /** What is written for one node. */
  method WriteNode(kconf: Kconfig, ghost top: MenuNode, p: Props, d0: Doc) returns (d: Doc)
    requires kconf.Valid() && Known(kconf.k, p)
    modifies kconf`live, kconf`vis, kconf.syms, kconf.choices
    ensures kconf.Kept() && d == Visit(ValuesWriter(kconf.k, kconf.input, kconf.rk, top), p, d0)
  {
    hide Eval, StrOf, Written, ConfigString, ExprOf;
    d := d0;
    if p.item.SymNode? {
      if p.item.s in d.seen { return; }
      d := d.(seen := d.seen + {p.item.s});
      var text := kconf.ConfigLine(p.item.s);
      if text.None? { return; }
      d := Doc(d.lines + (if d.afterEnd then [""] else []) + [text.value], d.seen, false);
    } else {
      var visible := Holds(kconf, p.dep);
      if visible && !p.item.Comment? {
        visible := false;
        if p.item.Menu? { visible := Holds(kconf, p.visibility); }
      }
      if visible { d := d.(lines := d.lines + ["", "#", "# " + p.title, "#"], afterEnd := false); }
    }
  }

  /** What is written on leaving a node upwards. */
  method WriteEnd(kconf: Kconfig, top: MenuNode, node: MenuNode, d0: Doc) returns (d: Doc)
    requires kconf.Valid() && Known(kconf.k, node.props)
    modifies kconf`live, kconf`vis, kconf.syms, kconf.choices
    ensures kconf.Kept()
    ensures d == Leave(ValuesWriter(kconf.k, kconf.input, kconf.rk, top), node, node.props, d0)
  {
    hide Eval, ExprOf;
    d := d0;
    if node.props.item.Menu? {
      var ending := Holds(kconf, node.props.dep);
      if ending { ending := Holds(kconf, node.props.visibility); }
      if ending && node != top {
        d := d.(lines := d.lines + ["# end of " + node.props.title], afterEnd := true);
      }
    }
  }

  /** All nodes in 'all' are known. */
  ghost predicate AllKnown(k: Config, all: set<MenuNode>)
    reads all
  {
    forall o :: o in all ==> Known(k, o.props)
  }

  /** The inner loop: up from a node without later siblings. */
  method LeaveUp(kconf: Kconfig, top: MenuNode, start: MenuNode, d0: Doc, ghost path: Path, ghost all: set<MenuNode>)
    returns (next: MenuNode?, d: Doc)
    requires kconf.Valid() && AllKnown(kconf.k, all)
    requires path != [] && OnPath(path, all) && start == path[0].t.node && path[0].later == []
    modifies kconf`live, kconf`vis, kconf.syms, kconf.choices
    ensures kconf.Kept()
    ensures d == ClimbDoc(Writing(ValuesWriter(kconf.k, kconf.input, kconf.rk, top)), path, d0)
    ensures if Climb(path) == [] then next == null
            else OnPath(Climb(path), all) && next == Climb(path)[0].t.node
  {
    hide OnPath, AllKnown;
    var node := start;
    d := d0;
    ghost var p := path;
    ghost var v := Writing(ValuesWriter(kconf.k, kconf.input, kconf.rk, top));
    OpenPlace(p, all);
    while node.parent != null
      invariant kconf.Kept()
      invariant p != [] && OnPath(p, all) && AllKnown(kconf.k, all)
      invariant node == p[0].t.node && node.parent == ParentOf(p, 0)
      invariant ClimbDoc(v, p, d) == ClimbDoc(v, path, d0) && Climb(p) == Climb(path)
      decreases |p|
    {
      UpIsOnPath(p, all);
      OpenPlace(p[1..], all);
      node := node.parent;
      NodeIsKnown(kconf.k, all, node);
      d := WriteEnd(kconf, top, node, d);
      if node.next != null {
        LaterIsOnPath(p[1..], all);
        assert p[1..][1..] == p[2..];
        return node.next, d;
      }
      p := p[1..];
    }
    next := null;
  }

  lemma NodeIsKnown(k: Config, all: set<MenuNode>, node: MenuNode)
    requires AllKnown(k, all) && node in all
    ensures Known(k, node.props)
  {
  }

  /** The jump to the next node. */
  method NextNode(kconf: Kconfig, top: MenuNode, start: MenuNode, d0: Doc, ghost path: Path, ghost all: set<MenuNode>)
    returns (next: MenuNode?, d: Doc)
    requires kconf.Valid() && AllKnown(kconf.k, all)
    requires path != [] && OnPath(path, all) && start == path[0].t.node
    modifies kconf`live, kconf`vis, kconf.syms, kconf.choices
    ensures kconf.Kept()
    ensures d == if path[0].t.kids == [] && path[0].later == []
                 then ClimbDoc(Writing(ValuesWriter(kconf.k, kconf.input, kconf.rk, top)), path, d0) else d0
    ensures if Next(path) == [] then next == null
            else OnPath(Next(path), all) && next == Next(path)[0].t.node && next in all
  {
    hide OnPath, AllKnown, Next, Climb, ClimbDoc, Writing;
    OpenPlace(path, all);
    NextIs(path);
    if start.list != null {
      KidsAreOnPath(path, all);
      next, d := start.list, d0;
    } else if start.next != null {
      LaterIsOnPath(path, all);
      next, d := start.next, d0;
    } else {
      next, d := LeaveUp(kconf, top, start, d0, path, all);
    }
    if next != null { OpenPlace(Next(path), all); }
  }

  /** The lines of a .config file for the finalized menu tree: what the walk by recursion writes
      with the values from scratch. */
  method ConfigContents(kconf: Kconfig, top: MenuNode, header: seq<string>, ghost t: Tree<MenuNode>) returns (d: Doc)
    requires kconf.Valid() && top == t.node && Linked([t], null, null) && AllKnown(kconf.k, Nodes([t]))
    modifies kconf`live, kconf`vis, kconf.syms, kconf.choices
    ensures kconf.Kept()
    ensures d == Walk(Writing(ValuesWriter(kconf.k, kconf.input, kconf.rk, top)), t.kids, Doc(header, {}, false))
  {
    hide OnPath, Next, AllKnown, Visit, Leave, Walk, ClimbDoc, Rest, Linked, Nodes;
    var node := top;
    d := Doc(header, {}, false);
    ghost var all, path := Nodes([t]), [Place(t, [])];
    ghost var v := Writing(ValuesWriter(kconf.k, kconf.input, kconf.rk, top));
    NodesAllocated([t]);
    TopIsOnPath(t);
    TopIsLeft(ValuesWriter(kconf.k, kconf.input, kconf.rk, top), t, d);
    while true
      invariant kconf.Kept()
      invariant path != [] && OnPath(path, all) && AllKnown(kconf.k, all) && node == path[0].t.node
      invariant Rest(v, path, d) == Walk(v, t.kids, Doc(header, {}, false))
      decreases Pending(path)
    {
      NextIsSmaller(path);
      NextKeepsRest(v, path, d);
      var next;
      next, d := NextNode(kconf, top, node, d, path, all);
      if next == null { return; }
      node := next;
      path := Next(path);
      OpenPlace(path, all);
      NodeIsKnown(kconf.k, all, node);
      d := WriteNode(kconf, top, node.props, d);
    }
  }

  lemma TopIsLeft(w: Writer, t: Tree<MenuNode>, d: Doc)
    requires w.top == t.node
    ensures Rest(Writing(w), [Place(t, [])], d) == Walk(Writing(w), t.kids, d)
  {
  }

  /** What has been written restores all values and modes, if it is loaded into any instance, if
      and only if no value is truncated, and no choice loses its mode. */
  lemma {:induction false} SavedFileRoundTrip(
      k: Config, u: Input, rk: Rank, u0: Input, top: MenuNode, ts: Forest, header: seq<string>)
    requires Setting(k, u, rk) && NamesOk(k.syms) && Representable(k, u, rk) && InputOk(k, u0)
    requires Numbered(UniqueSyms(Entries(ts), {}), |k.syms|) && AllHarmless(k, ts) && Significant(k, header) == []
    ensures var u' := Load(k, u0, Walk(Writing(ValuesWriter(k, u, rk, top)), ts, Doc(header, {}, false)).lines, true);
            var kept := forall s :: 0 <= s < |k.syms| ==> !Truncated(k, u, rk, s);
            && (SameValues(k, u, u', rk) && SameModes(k, u, u', rk) <==> kept && ModesSurvive(k, u, rk, FullKeep(k, u, rk)))
            && (ModesSurvive(k, u, rk, FullKeep(k, u, rk)) ==> (SameValues(k, u, u', rk) <==> kept))
  {
    hide Significant, AllHarmless, ConfigString, Truncated, Load, SameValues, SameModes, ModesSurvive, StrOf, Eval, Written,
      NamesOk, Numbered, Walk, Setting, Representable, InputOk;
    WrittenFileRoundTrip(k, u, rk, u0, ValuesWriter(k, u, rk, top), ts, header);
  }
}
