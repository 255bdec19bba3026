/** Menu finalization keeps the definition order: what it does to the shape of the tree. */
module MenuOrder {
  import opened Wrappers
  import opened Expressions
  import opened MenuTree

  /** The nodes in definition order: each one before its children, and these before the
      next node. */
  function Entries<N>(ts: seq<Tree<N>>): seq<Entry<N>> {
    if ts == [] then [] else [Entry(ts[0].node, ts[0].props)] + (Entries(ts[0].kids) + Entries(ts[1..]))
  }

  function NonIfs<N>(es: seq<Entry<N>>): seq<Entry<N>> {
    if es == [] then []
    else if es[0].props.item.If? then NonIfs(es[1..])
    else [es[0]] + NonIfs(es[1..])
  }

  /** The parsed tree with everything propagated down, but with its shape unchanged. The
      given nodes themselves have received what they inherit already. */
  function Annotated<N>(ts: seq<Tree<N>>, visibleIf: Expr): (r: seq<Tree<N>>)
    ensures |r| == |ts|
    decreases Size(ts)
  {
    if ts == [] then [] else
    var vis := VisibleIf(ts[0].props, visibleIf);
    [ts[0].(kids := Annotated(PropagatedAll(ts[0].kids, BaseDep(ts[0].props), vis), vis))] + Annotated(ts[1..], visibleIf)
  }

  /** What comes out of the parser: 'if' nodes have no prompt, and symbols and comments have
      no children. */
  ghost predicate Parsed<N>(ts: seq<Tree<N>>) {
    ts == [] || (
      && (ts[0].props.item.If? ==> ts[0].props.prompt.None?)
      && (ts[0].props.item.SymNode? || ts[0].props.item.Comment? ==> ts[0].kids == [])
      && Parsed(ts[0].kids) && Parsed(ts[1..]))
  }

  /** There is no 'if' node in the trees. */
  ghost predicate NoIfs<N>(ts: seq<Tree<N>>) {
    ts == [] || (!ts[0].props.item.If? && NoIfs(ts[0].kids) && NoIfs(ts[1..]))
  }

  /** There is no 'if' node below the roots of the trees. */
  ghost predicate NoIfsBelow<N>(ts: seq<Tree<N>>) {
    forall i :: 0 <= i < |ts| ==> NoIfs(ts[i].kids) && (ts[i].props.item.If? ==> ts[i].props.prompt.None?)
  }

  // Concatenation

  lemma {:induction false} EntriesConcat<N>(a: seq<Tree<N>>, b: seq<Tree<N>>)
    ensures Entries(a + b) == Entries(a) + Entries(b)
  {
    if a == [] {
      assert a + b == b;
    } else {
      assert (a + b)[1..] == a[1..] + b;
      EntriesConcat(a[1..], b);
    }
  }

  lemma {:induction false} NonIfsConcat<N>(a: seq<Entry<N>>, b: seq<Entry<N>>)
    ensures NonIfs(a + b) == NonIfs(a) + NonIfs(b)
  {
    if a == [] {
      assert a + b == b;
    } else {
      assert (a + b)[1..] == a[1..] + b;
      NonIfsConcat(a[1..], b);
    }
  }

  lemma {:induction false} AnnotatedConcat<N>(a: seq<Tree<N>>, b: seq<Tree<N>>, visibleIf: Expr)
    ensures Annotated(a + b, visibleIf) == Annotated(a, visibleIf) + Annotated(b, visibleIf)
  {
    if a == [] {
      assert a + b == b;
    } else {
      assert (a + b)[1..] == a[1..] + b;
      AnnotatedConcat(a[1..], b, visibleIf);
    }
  }

  lemma {:induction false} ParsedConcat<N>(a: seq<Tree<N>>, b: seq<Tree<N>>)
    ensures Parsed(a + b) <==> Parsed(a) && Parsed(b)
  {
    if a == [] {
      assert a + b == b;
    } else {
      assert (a + b)[1..] == a[1..] + b;
      ParsedConcat(a[1..], b);
    }
  }

  lemma {:induction false} NoIfsIndex<N>(ts: seq<Tree<N>>)
    ensures NoIfs(ts) <==> forall i :: 0 <= i < |ts| ==> !ts[i].props.item.If? && NoIfs(ts[i].kids)
  {
    if ts == [] {
    } else {
      NoIfsIndex(ts[1..]);
      assert forall i :: 1 <= i < |ts| ==> ts[i] == ts[1..][i - 1];
    }
  }

  // Cleaning up a level

  lemma {:induction false} FlattenKeeps<N>(ts: seq<Tree<N>>)
    requires NoIfsBelow(ts)
    ensures var r := Flatten(ts);
            Entries(r) == Entries(ts) && NoIfsBelow(r) && forall t :: t in r && t.props.item.If? ==> t.kids == []
    decreases Size(ts)
  {
    if ts != [] {
      if ts[0].kids != [] && Flattened(ts[0].props) {
        var rest := ts[0].kids + ts[1..];
        SizeConcat(ts[0].kids, ts[1..]);
        NoIfsIndex(ts[0].kids);
        FlattenKeeps(rest);
        EntriesConcat(ts[0].kids, ts[1..]);
      } else {
        FlattenKeeps(ts[1..]);
      }
    }
  }

  lemma FlattenFirst<N>(ts: seq<Tree<N>>)
    requires ts != []
    ensures Flatten(ts) == if ts[0].kids != [] && Flattened(ts[0].props)
                           then [ts[0].(kids := [])] + Flatten(ts[0].kids + ts[1..]) else [ts[0]] + Flatten(ts[1..])
    ensures Size(ts[1..]) < Size(ts) && Size(ts[0].kids + ts[1..]) < Size(ts)
  {
    SizeConcat(ts[0].kids, ts[1..]);
  }

  lemma {:induction false} FlattenConcat<N>(a: seq<Tree<N>>, b: seq<Tree<N>>)
    ensures Flatten(a + b) == Flatten(a) + Flatten(b)
    decreases Size(a)
  {
    hide Size, Flattened;
    if a == [] {
      assert a + b == b;
    } else {
      hide Flatten;
      assert (a + b)[1..] == a[1..] + b && (a + b)[0] == a[0];
      FlattenFirst(a);
      FlattenFirst(a + b);
      if a[0].kids != [] && Flattened(a[0].props) {
        assert a[0].kids + (a[1..] + b) == (a[0].kids + a[1..]) + b;
        FlattenConcat(a[0].kids + a[1..], b);
      } else {
        FlattenConcat(a[1..], b);
      }
    }
  }

  /** A node without a prompt that is no choice is followed by its own children, flattened as well,
      and left without any; every other node stays as it is. */
  lemma {:induction false} FlattenIs<N>(t: Tree<N>, rest: seq<Tree<N>>)
    ensures Flatten<N>([]) == []
    ensures Flatten([t] + rest) ==
            (if t.props.prompt.None? && !t.props.item.ChoiceNode? then [t.(kids := [])] + Flatten(t.kids) else [t]) + Flatten(rest)
  {
    assert ([t] + rest)[1..] == rest;
    FlattenConcat(t.kids, rest);
  }

  lemma {:induction false} FirstEntries<N>(t: Tree<N>, rest: seq<Tree<N>>)
    ensures NonIfs(Entries([t] + rest)) ==
            (if t.props.item.If? then [] else [Entry(t.node, t.props)]) + (NonIfs(Entries(t.kids)) + NonIfs(Entries(rest)))
  {
    assert ([t] + rest)[1..] == rest;
    NonIfsConcat(Entries(t.kids), Entries(rest));
  }

  lemma {:induction false} RemoveIfsKeeps<N>(ts: seq<Tree<N>>)
    requires NoIfsBelow(ts) && forall t :: t in ts && t.props.item.If? ==> t.kids == []
    ensures var r := RemoveIfs(ts);
            NoIfs(r) && NonIfs(Entries(r)) == NonIfs(Entries(ts))
  {
    if ts == [] {
    } else {
      var rest := RemoveIfs(ts[1..]);
      RemoveIfsKeeps(ts[1..]);
      FirstEntries(ts[0], ts[1..]);
      FirstEntries(ts[0], rest);
      if !ts[0].props.item.If? { assert RemoveIfs(ts) == [ts[0]] + rest; }
    }
  }

  lemma {:induction false} CleanLevelKeeps<N>(ts: seq<Tree<N>>)
    requires NoIfsBelow(ts)
    ensures NoIfs(CleanLevel(ts)) && NonIfs(Entries(CleanLevel(ts))) == NonIfs(Entries(ts))
  {
    FlattenKeeps(ts);
    RemoveIfsKeeps(Flatten(ts));
  }

  // Finalization

  lemma {:induction false} PropagatedIsParsed<N>(ts: seq<Tree<N>>, base: Expr, visibleIf: Expr)
    requires Parsed(ts)
    ensures Parsed(PropagatedAll(ts, base, visibleIf))
  {
    if ts == [] {
    } else {
      PropagatedIsParsed(ts[1..], base, visibleIf);
    }
  }

  /** What finalizing siblings, or a part of them, must do. */
  ghost predicate Keeps<N>(ts: seq<Tree<N>>, visibleIf: Expr, l: Level<N>) {
    && l.taken <= |ts|
    && l.order == Entries(Annotated(ts[..l.taken], visibleIf))
    && NonIfs(Entries(l.kids)) == NonIfs(l.order)
    && NoIfsBelow(l.kids)
  }

  /** One more finalized tree. */
  lemma {:induction false} KeepsMore<N>(ts: seq<Tree<N>>, visibleIf: Expr, f: Final<N>, l: Level<N>)
    requires ts != [] && f.taken < |ts|
    requires Keeps(ts, visibleIf, Level([f.tree], 1 + f.taken, f.order, f.choices))
    requires Keeps(ts[1 + f.taken..], visibleIf, l)
    ensures Keeps(ts, visibleIf, Level([f.tree] + l.kids, 1 + f.taken + l.taken, f.order + l.order, f.choices + l.choices))
  {
    hide Entries, NonIfs, Annotated, NoIfs;
    var n := 1 + f.taken;
    assert ts[..n + l.taken] == ts[..n] + ts[n..][..l.taken];
    AnnotatedConcat(ts[..n], ts[n..][..l.taken], visibleIf);
    EntriesConcat(Annotated(ts[..n], visibleIf), Annotated(ts[n..][..l.taken], visibleIf));
    EntriesConcat([f.tree], l.kids);
    NonIfsConcat(Entries([f.tree]), Entries(l.kids));
    NonIfsConcat(f.order, l.order);
  }

  /** Finalizing a node finalizes the node, everything below it, and the siblings it takes
      in, each exactly once and in definition order, with all conditions propagated.
      Except for 'if' nodes, the finalized tree lists just these nodes, in this order, and
      no 'if' node is left below its root. */
  lemma {:induction false} FinalizeKeeps<N>(t: Tree<N>, rest: seq<Tree<N>>, visibleIf: Expr)
    requires Parsed([t]) && Parsed(rest)
    ensures var f := Finalize(t, rest, visibleIf);
            Keeps([t] + rest, visibleIf, Level([f.tree], 1 + f.taken, f.order, f.choices)) && NoIfs(f.tree.kids)
    decreases 1 + Size(t.kids) + Size(rest), 1
  {
    hide Entries, NonIfs, NoIfs, NoIfsBelow, AutoMenuDep, TakeSubmenu, FinalizeAll, PropagatedAll, CleanLevel, Propagated;
    if t.props.item.SymNode? {
      var l := TakeSubmenu(t.props.item.s, rest, visibleIf);
      TakeSubmenuKeeps(t.props.item.s, rest, visibleIf);
      assert t.kids == [] && (l.taken == 0 ==> l.kids == t.kids);
      assert ([t] + rest)[..1 + l.taken] == [t] + rest[..l.taken];
      AnnotatedConcat([t], rest[..l.taken], visibleIf);
      LeafEntries(t, visibleIf);
      EntriesConcat(Annotated([t], visibleIf), Annotated(rest[..l.taken], visibleIf));
      CleanedTree(t, l);
    } else {
      var vis := VisibleIf(t.props, visibleIf);
      var kids := PropagatedAll(t.kids, BaseDep(t.props), vis);
      var l := FinalizeAll(kids, vis);
      PropagatedIsParsed(t.kids, BaseDep(t.props), vis);
      FinalizeAllKeeps(kids, vis);
      assert kids[..l.taken] == kids;
      assert ([t] + rest)[..1] == [t];
      AnnotatedEntries(t, visibleIf);
      CleanedTree(t, l);
    }
  }

  lemma {:induction false} AnnotatedEntries<N>(t: Tree<N>, visibleIf: Expr)
    ensures var vis := VisibleIf(t.props, visibleIf);
            Entries(Annotated([t], visibleIf)) ==
            [Entry(t.node, t.props)] + Entries(Annotated(PropagatedAll(t.kids, BaseDep(t.props), vis), vis))
  {
  }

  lemma {:induction false} LeafEntries<N>(t: Tree<N>, visibleIf: Expr)
    requires t.kids == []
    ensures Entries(Annotated([t], visibleIf)) == [Entry(t.node, t.props)]
  {
  }

  /** The last steps at the children of a node. */
  lemma {:induction false} CleanedTree<N>(t: Tree<N>, l: Level<N>)
    requires NoIfsBelow(l.kids) && NonIfs(Entries(l.kids)) == NonIfs(l.order)
    requires t.props.item.If? ==> t.props.prompt.None?
    ensures var tree := t.(kids := CleanLevel(l.kids));
            && NoIfs(tree.kids) && NoIfsBelow([tree])
            && NonIfs(Entries([tree])) == NonIfs([Entry(t.node, t.props)] + l.order)
  {
    hide CleanLevel, NoIfs;
    var tree := t.(kids := CleanLevel(l.kids));
    CleanLevelKeeps(l.kids);
    assert Entries([tree]) == [Entry(t.node, t.props)] + Entries(tree.kids);
    NonIfsConcat([Entry(t.node, t.props)], Entries(tree.kids));
    NonIfsConcat([Entry(t.node, t.props)], l.order);
  }

  lemma {:induction false} ParsedParts<N>(ts: seq<Tree<N>>, n: nat)
    requires Parsed(ts) && 0 < n <= |ts|
    ensures Parsed([ts[0]]) && Parsed(ts[1..]) && Parsed(ts[n..])
  {
    assert ts == ts[..n] + ts[n..];
    ParsedConcat(ts[..n], ts[n..]);
  }

  lemma KeepsNothing<N>(ts: seq<Tree<N>>, visibleIf: Expr)
    ensures Keeps(ts, visibleIf, Level([], 0, [], []))
  {
  }

  lemma {:induction false} SubmenuStops<N>(s: nat, rest: seq<Tree<N>>, visibleIf: Expr)
    ensures rest == [] || !AutoMenuDep(s, rest[0].props) ==> TakeSubmenu(s, rest, visibleIf) == Level([], 0, [], [])
  {
  }

  lemma FinalizeNone<N>(visibleIf: Expr)
    ensures FinalizeAll<N>([], visibleIf) == Level([], 0, [], [])
  {
  }

  lemma {:induction false} TakeSubmenuKeeps<N>(s: nat, rest: seq<Tree<N>>, visibleIf: Expr)
    requires Parsed(rest)
    ensures Keeps(rest, visibleIf, TakeSubmenu(s, rest, visibleIf))
    decreases Size(rest), 2
  {
    hide Entries, NonIfs, NoIfs, Keeps, AutoMenuDep, Finalize, Parsed, Annotated, Size, TakeSubmenu;
    SubmenuStops(s, rest, visibleIf);
    if rest == [] || !AutoMenuDep(s, rest[0].props) {
      KeepsNothing(rest, visibleIf);
    } else {
      var f := Finalize(rest[0], rest[1..], visibleIf);
      RestIsSmaller(rest, f.taken);
      ParsedParts(rest, 1 + f.taken);
      FinalizeKeeps(rest[0], rest[1..], visibleIf);
      assert [rest[0]] + rest[1..] == rest;
      TakeSubmenuStep(s, rest, visibleIf);
      TakeSubmenuKeeps(s, rest[1 + f.taken..], visibleIf);
      KeepsMore(rest, visibleIf, f, TakeSubmenu(s, rest[1 + f.taken..], visibleIf));
    }
  }

  lemma {:induction false} FinalizeAllKeeps<N>(ts: seq<Tree<N>>, visibleIf: Expr)
    requires Parsed(ts)
    ensures Keeps(ts, visibleIf, FinalizeAll(ts, visibleIf))
    decreases Size(ts), 2
  {
    hide Entries, NonIfs, NoIfs, Keeps, Finalize, Parsed, Annotated, Size, FinalizeAll;
    if ts == [] {
      FinalizeNone<N>(visibleIf);
      KeepsNothing(ts, visibleIf);
    } else {
      var f := Finalize(ts[0], ts[1..], visibleIf);
      RestIsSmaller(ts, f.taken);
      ParsedParts(ts, 1 + f.taken);
      FinalizeKeeps(ts[0], ts[1..], visibleIf);
      assert [ts[0]] + ts[1..] == ts;
      FinalizeAllStep(ts, visibleIf);
      FinalizeAllKeeps(ts[1 + f.taken..], visibleIf);
      KeepsMore(ts, visibleIf, f, FinalizeAll(ts[1 + f.taken..], visibleIf));
    }
  }

  /** A submenu takes the longest possible run of items: each of its items has an automatic
      menu dependency on the symbol, and the first remaining sibling has none. */
  lemma {:induction false} SubmenuIsMaximal<N>(s: nat, rest: seq<Tree<N>>, visibleIf: Expr)
    ensures var l := TakeSubmenu(s, rest, visibleIf);
            && (forall t :: t in l.kids ==> AutoMenuDep(s, t.props))
            && (l.taken < |rest| ==> !AutoMenuDep(s, rest[l.taken].props))
    decreases Size(rest)
  {
    hide Finalize, AutoMenuDep, Size, TakeSubmenu;
    SubmenuStops(s, rest, visibleIf);
    if rest != [] && AutoMenuDep(s, rest[0].props) {
      var f := Finalize(rest[0], rest[1..], visibleIf);
      RestIsSmaller(rest, f.taken);
      TakeSubmenuStep(s, rest, visibleIf);
      SubmenuIsMaximal(s, rest[1 + f.taken..], visibleIf);
    }
  }
}
