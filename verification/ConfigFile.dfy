/** The order in which node_iter() and _config_contents() go over the menu tree, and the
    .config file that results. */
module ConfigFile {
  import opened Wrappers
  import opened Expressions
  import opened Evaluation
  import opened Semantics
  import opened Inputs
  import opened ConfigText
  import opened Numbers
  import opened Loading
  import opened RoundTrip
  import opened ValueLaws
  import opened MenuTree
  import opened MenuNodes
  import opened MenuOrder
  import opened MenuWalk
  import opened Propagation

  // node_iter()

  /** The nodes yielded so far, and the symbols with _visited set. */
  datatype Iteration = Iteration(nodes: seq<MenuNode>, seen: set<nat>)

  function Yield(uniqueSyms: bool, node: MenuNode, p: Props, it: Iteration): Iteration {
    if !uniqueSyms || !p.item.SymNode? then it.(nodes := it.nodes + [node])
    else if p.item.s in it.seen then it
    else Iteration(it.nodes + [node], it.seen + {p.item.s})
  }

  /** The nodes in the given order, without the later nodes of a symbol if these are not wanted. */
  function Kept(uniqueSyms: bool, es: seq<Entry<MenuNode>>, seen: set<nat>): seq<MenuNode> {
    if es == [] then []
    else if !uniqueSyms || !es[0].props.item.SymNode? then [es[0].node] + Kept(uniqueSyms, es[1..], seen)
    else if es[0].props.item.s in seen then Kept(uniqueSyms, es[1..], seen)
    else [es[0].node] + Kept(uniqueSyms, es[1..], seen + {es[0].props.item.s})
  }

  /** The symbols defined by the nodes: Kconfig.defined_syms. */
  function DefinedSyms<N>(es: seq<Entry<N>>): seq<nat> {
    if es == [] then []
    else (if es[0].props.item.SymNode? then [es[0].props.item.s] else []) + DefinedSyms(es[1..])
  }

  /** Each symbol once, in the order of its first node: Kconfig.unique_defined_syms. */
  function UniqueSyms<N>(es: seq<Entry<N>>, seen: set<nat>): seq<nat> {
    if es == [] then []
    else if !es[0].props.item.SymNode? || es[0].props.item.s in seen then UniqueSyms(es[1..], seen)
    else [es[0].props.item.s] + UniqueSyms(es[1..], seen + {es[0].props.item.s})
  }

  function Seen<N>(es: seq<Entry<N>>, seen: set<nat>): set<nat> {
    if es == [] then seen else
    Seen(es[1..], if es[0].props.item.SymNode? then seen + {es[0].props.item.s} else seen)
  }

  lemma {:induction false} UniqueSymsConcat<N>(a: seq<Entry<N>>, b: seq<Entry<N>>, seen: set<nat>)
    ensures UniqueSyms(a + b, seen) == UniqueSyms(a, seen) + UniqueSyms(b, Seen(a, seen))
    ensures Seen(a + b, seen) == Seen(b, Seen(a, seen))
  {
    if a == [] {
      assert a + b == b;
    } else {
      assert (a + b)[1..] == a[1..] + b;
      var s := a[0].props.item;
      UniqueSymsConcat(a[1..], b, if s.SymNode? then seen + {s.s} else seen);
      if s.SymNode? && s.s in seen { assert seen + {s.s} == seen; }
    }
  }

  /** No symbol occurs twice, and each one that is defined occurs. */
  lemma {:induction false} UniqueSymsAreUnique<N>(es: seq<Entry<N>>, seen: set<nat>)
    ensures var us := UniqueSyms(es, seen);
            && (forall i, j :: 0 <= i < j < |us| ==> us[i] != us[j])
            && (forall s :: s in us <==> s in DefinedSyms(es) && s !in seen)
  {
    if es != [] {
      var item := es[0].props.item;
      var rest := UniqueSyms(es[1..], seen);
      if item.SymNode? && item.s !in seen {
        rest := UniqueSyms(es[1..], seen + {item.s});
        UniqueSymsAreUnique(es[1..], seen + {item.s});
        assert UniqueSyms(es, seen) == [item.s] + rest;
      } else {
        UniqueSymsAreUnique(es[1..], seen);
      }
    }
  }

  /** Yielding one node after the other. */
  function YieldAll(uniqueSyms: bool, es: seq<Entry<MenuNode>>, it: Iteration): Iteration {
    if es == [] then it else YieldAll(uniqueSyms, es[1..], Yield(uniqueSyms, es[0].node, es[0].props, it))
  }

  lemma {:induction false} YieldAllConcat(uniqueSyms: bool, a: seq<Entry<MenuNode>>, b: seq<Entry<MenuNode>>, it: Iteration)
    ensures YieldAll(uniqueSyms, a + b, it) == YieldAll(uniqueSyms, b, YieldAll(uniqueSyms, a, it))
  {
    if a == [] {
      assert a + b == b;
    } else {
      assert (a + b)[1..] == a[1..] + b;
      YieldAllConcat(uniqueSyms, a[1..], b, Yield(uniqueSyms, a[0].node, a[0].props, it));
    }
  }

  lemma {:induction false} YieldAllKeeps(uniqueSyms: bool, es: seq<Entry<MenuNode>>, it: Iteration)
    ensures YieldAll(uniqueSyms, es, it).nodes == it.nodes + Kept(uniqueSyms, es, it.seen)
  {
    if es == [] {
    } else {
      var it' := Yield(uniqueSyms, es[0].node, es[0].props, it);
      YieldAllKeeps(uniqueSyms, es[1..], it');
    }
  }

  function Iterator(uniqueSyms: bool): Visitor<Iteration> {
    Visitor((n, p, it) => Yield(uniqueSyms, n, p, it), (n, p, it) => it)
  }

  lemma {:induction false} WalkYields(uniqueSyms: bool, ts: Forest, it: Iteration)
    ensures Walk(Iterator(uniqueSyms), ts, it) == YieldAll(uniqueSyms, Entries(ts), it)
  {
    if ts == [] {
    } else {
      var it1 := Yield(uniqueSyms, ts[0].node, ts[0].props, it);
      var it2 := Walk(Iterator(uniqueSyms), ts[0].kids, it1);
      WalkYields(uniqueSyms, ts[0].kids, it1);
      WalkYields(uniqueSyms, ts[1..], it2);
      YieldAllConcat(uniqueSyms, Entries(ts[0].kids), Entries(ts[1..]), it1);
    }
  }

  /** node_iter() yields the nodes in definition order, each once. */
  method NodeIter(top: MenuNode, uniqueSyms: bool, ghost t: Tree<MenuNode>) returns (nodes: seq<MenuNode>)
    requires top == t.node && Linked([t], null, null)
    ensures nodes == Kept(uniqueSyms, Entries(t.kids), {})
  {
    var it := FollowLinks(Iterator(uniqueSyms), top, Iteration([], {}), t);
    WalkYields(uniqueSyms, t.kids, Iteration([], {}));
    YieldAllKeeps(uniqueSyms, Entries(t.kids), Iteration([], {}));
    nodes := it.nodes;
  }

  // Definition order

  lemma {:induction false} DefinedSymsConcat<N>(a: seq<Entry<N>>, b: seq<Entry<N>>)
    ensures DefinedSyms(a + b) == DefinedSyms(a) + DefinedSyms(b)
  {
    if a == [] {
      assert a + b == b;
    } else {
      assert (a + b)[1..] == a[1..] + b;
      DefinedSymsConcat(a[1..], b);
    }
  }

  lemma FirstDefined<N>(e: Entry<N>, rest: seq<Entry<N>>)
    ensures DefinedSyms([e] + rest) == (if e.props.item.SymNode? then [e.props.item.s] else []) + DefinedSyms(rest)
  {
    assert ([e] + rest)[1..] == rest;
  }

  lemma {:induction false} IfsDefineNothing<N>(es: seq<Entry<N>>)
    ensures DefinedSyms(NonIfs(es)) == DefinedSyms(es)
  {
    hide DefinedSyms;
    if es != [] {
      var rest := NonIfs(es[1..]);
      IfsDefineNothing(es[1..]);
      FirstDefined(es[0], es[1..]);
      FirstDefined(es[0], rest);
      assert es == [es[0]] + es[1..];
      assert NonIfs(es) == if es[0].props.item.If? then rest else [es[0]] + rest;
      assert [] + DefinedSyms(rest) == DefinedSyms(rest);
    }
  }

  lemma {:induction false} AnnotatedDefines<N>(ts: seq<Tree<N>>, base: Expr, visibleIf: Expr)
    ensures DefinedSyms(Entries(Annotated(PropagatedAll(ts, base, visibleIf), visibleIf))) == DefinedSyms(Entries(ts))
    decreases Size(ts)
  {
    hide Propagated;
    if ts == [] {
    } else {
      var p := Propagated(ts[0].props, base, visibleIf);
      var base', vis' := BaseDep(p), VisibleIf(p, visibleIf);
      PropagatedItem(ts[0].props, base, visibleIf);
      AnnotatedDefines(ts[0].kids, base', vis');
      AnnotatedDefines(ts[1..], base, visibleIf);
      DefinedSymsConcat(Entries(ts[0].kids), Entries(ts[1..]));
      DefinedSymsConcat(Entries(Annotated(PropagatedAll(ts[0].kids, base', vis'), vis')),
                        Entries(Annotated(PropagatedAll(ts[1..], base, visibleIf), visibleIf)));
      assert PropagatedAll(ts, base, visibleIf) == [ts[0].(props := p)] + PropagatedAll(ts[1..], base, visibleIf);
    }
  }

  /** The nodes of the finalized tree define the same symbols in the same order as those of the
      parsed tree: node_iter() agrees with defined_syms. */
  lemma {:induction false} DefinitionOrder<N>(top: Tree<N>)
    requires Parsed([top]) && !top.props.item.SymNode? && !top.props.item.If?
    ensures DefinedSyms(Entries(Finalize(top, [], Y).tree.kids)) == DefinedSyms(Entries(top.kids))
  {
    hide Finalize, Annotated, PropagatedAll, Parsed, Entries, NonIfs, DefinedSyms;
    var f, vis := Finalize(top, [], Y), VisibleIf(top.props, Y);
    FinalizeKeeps(top, [], Y) by { NothingParsed<N>(); }
    assert [top] + [] == [top] && [top][..1] == [top];
    AnnotatedEntries(top, Y);
    AnnotatedDefines(top.kids, BaseDep(top.props), vis);
    IfsDefineNothing(f.order);
    IfsDefineNothing(Entries([f.tree]));
    FirstDefinesNothing(f.tree);
    FirstDefinesNothing(top.(kids := Annotated(PropagatedAll(top.kids, BaseDep(top.props), vis), vis)));
  }

  lemma NothingParsed<N>()
    ensures Parsed<N>([])
  {
  }

  lemma {:induction false} FirstDefinesNothing<N>(t: Tree<N>)
    requires !t.props.item.SymNode?
    ensures Entries([t]) == [Entry(t.node, t.props)] + Entries(t.kids)
    ensures DefinedSyms(Entries([t])) == DefinedSyms(Entries(t.kids))
  {
    assert Entries([t])[1..] == Entries(t.kids);
  }

  /** unique_defined_syms depends on defined_syms only. */
  lemma {:induction false} UniqueOfDefined<N>(es: seq<Entry<N>>, es': seq<Entry<N>>, seen: set<nat>)
    requires DefinedSyms(es) == DefinedSyms(es')
    ensures UniqueSyms(es, seen) == UniqueSyms(es', seen)
    decreases |es| + |es'|
  {
    if es != [] && !es[0].props.item.SymNode? {
      assert DefinedSyms(es) == DefinedSyms(es[1..]);
      UniqueOfDefined(es[1..], es', seen);
    } else if es' != [] && !es'[0].props.item.SymNode? {
      assert DefinedSyms(es') == DefinedSyms(es'[1..]);
      UniqueOfDefined(es, es'[1..], seen);
    } else if es != [] && es' != [] {
      var s := es[0].props.item.s;
      assert DefinedSyms(es)[1..] == DefinedSyms(es[1..]) && DefinedSyms(es')[1..] == DefinedSyms(es'[1..]);
      assert DefinedSyms(es)[0] == s == es'[0].props.item.s;
      UniqueOfDefined(es[1..], es'[1..], if s in seen then seen else seen + {s});
    }
  }

  // _config_contents()

  /** What _config_contents() asks the value engine for. */
  datatype Writer = Writer(
    top: MenuNode,
    text: nat -> Option<string>,  // config_string, if it is not empty
    holds: Expr -> bool)          // expr_value() is not n

  /** The lines written so far, the symbols with _visited set, and after_end_comment. */
  datatype Doc = Doc(lines: seq<string>, seen: set<nat>, afterEnd: bool)

  function Visit(w: Writer, p: Props, d: Doc): Doc {
    match p.item
    case SymNode(s) =>
      if s in d.seen then d else
      var text := w.text(s);
      if text.None? then d.(seen := d.seen + {s}) else
      Doc(d.lines + (if d.afterEnd then [""] else []) + [text.value], d.seen + {s}, false)
    case _ =>
      if w.holds(p.dep) && ((p.item.Menu? && w.holds(p.visibility)) || p.item.Comment?)
      then d.(lines := d.lines + ["", "#", "# " + p.title, "#"], afterEnd := false)
      else d
  }

  function Leave(w: Writer, node: MenuNode, p: Props, d: Doc): Doc {
    if p.item.Menu? && w.holds(p.dep) && w.holds(p.visibility) && node != w.top
    then d.(lines := d.lines + ["# end of " + p.title], afterEnd := true)
    else d
  }

  function Writing(w: Writer): Visitor<Doc> {
    Visitor((n, p, d) => Visit(w, p, d), (n, p, d) => Leave(w, n, p, d))
  }

  // What is read back

  /** A menu or comment title that is not read as an assignment. */
  predicate Harmless(k: Config, p: Props) {
    p.item.Menu? || p.item.Comment? ==> ParseLine(k, "# " + p.title).None?
  }

  /** The lines of the given symbols. */
  function Texts(w: Writer, syms: seq<nat>): seq<string> {
    if syms == [] then [] else
    Texts(w, syms[..|syms| - 1]) + (var x := w.text(syms[|syms| - 1]); if x.Some? then [x.value] else [])
  }

  lemma {:induction false} TextsConcat(w: Writer, a: seq<nat>, b: seq<nat>)
    ensures Texts(w, a + b) == Texts(w, a) + Texts(w, b)
  {
    if b == [] {
      assert a + b == a;
    } else {
      assert (a + b)[..|a + b| - 1] == a + b[..|b| - 1];
      TextsConcat(w, a, b[..|b| - 1]);
    }
  }

  ghost predicate TextsParse(k: Config, w: Writer) {
    forall s :: w.text(s).Some? ==> ParseLine(k, w.text(s).value).Some?
  }

  lemma AddLine(k: Config, lines: seq<string>, line: string)
    ensures Significant(k, lines + [line]) ==
            if ParseLine(k, line).Some? then Significant(k, lines) + [line] else Significant(k, lines)
  {
    hide ParseLine;
    assert (lines + [line])[..|lines|] == lines;
    assert Significant(k, lines) + [] == Significant(k, lines);
  }

  lemma TitleLines(k: Config, lines: seq<string>, title: string)
    requires ParseLine(k, title).None?
    ensures Significant(k, lines + ["", "#", title, "#"]) == Significant(k, lines)
  {
    hide ParseLine, Significant;
    BlankLines(k);
    AddLine(k, lines, "");
    AddLine(k, lines + [""], "#");
    AddLine(k, lines + [""] + ["#"], title);
    AddLine(k, lines + [""] + ["#"] + [title], "#");
    assert lines + [""] + ["#"] + [title] + ["#"] == lines + ["", "#", title, "#"];
  }

  /** What is significant of what is written at a node. */
  lemma VisitLines<N>(k: Config, w: Writer, e: Entry<N>, d: Doc)
    requires TextsParse(k, w) && Harmless(k, e.props)
    ensures var d' := Visit(w, e.props, d);
            && Significant(k, d'.lines) == Significant(k, d.lines) + Texts(w, UniqueSyms([e], d.seen))
            && d'.seen == Seen([e], d.seen)
  {
    hide ParseLine, Significant;
    var p := e.props;
    assert [e][1..] == [] && UniqueSyms([e][1..], d.seen) == [] && Texts(w, []) == [];
    if p.item.SymNode? {
      var s := p.item.s;
      if s !in d.seen {
        assert UniqueSyms([e], d.seen) == [s] && [s][..0] == [];
        BlankLines(k);
        AddLine(k, d.lines, "");
        if w.text(s).Some? {
          AddLine(k, d.lines + [""], w.text(s).value);
          AddLine(k, d.lines, w.text(s).value);
          assert d.lines + [] == d.lines;
        }
      } else {
        assert d.seen + {s} == d.seen;
      }
    } else if p.item.Menu? || p.item.Comment? {
      TitleLines(k, d.lines, "# " + p.title);
    }
  }

  lemma BlankLines(k: Config)
    ensures ParseLine(k, "").None? && ParseLine(k, "#").None?
  {
  }

  lemma EndLine(k: Config, title: string)
    ensures ParseLine(k, "# end of " + title).None?
  {
    var raw := "# end of " + title;
    RStripPrefix(raw, 3);
    var line := RStrip(raw);
    assert line[0] == '#' && line[2] == 'e';
  }

  lemma {:induction false} RStripPrefix(s: string, i: nat)
    requires i <= |s| && i > 0 && !IsSpace(s[i - 1])
    ensures |RStrip(s)| >= i && RStrip(s)[..i] == s[..i]
  {
    if |s| > i { RStripPrefix(s[..|s| - 1], i); }
  }

  lemma LeaveLines(k: Config, w: Writer, node: MenuNode, p: Props, d: Doc)
    ensures var d' := Leave(w, node, p, d);
            Significant(k, d'.lines) == Significant(k, d.lines) && d'.seen == d.seen
  {
    hide ParseLine;
    AddLine(k, d.lines, "# end of " + p.title);
    EndLine(k, p.title);
  }

  ghost predicate AllHarmless(k: Config, ts: Forest) {
    forall i :: 0 <= i < |Entries(ts)| ==> Harmless(k, Entries(ts)[i].props)
  }

  lemma {:induction false} HarmlessParts(k: Config, ts: Forest)
    requires AllHarmless(k, ts) && ts != []
    ensures Harmless(k, ts[0].props) && AllHarmless(k, ts[0].kids) && AllHarmless(k, ts[1..])
  {
    hide Harmless;
    var e, a, b := [Entry(ts[0].node, ts[0].props)], Entries(ts[0].kids), Entries(ts[1..]);
    assert Entries(ts) == e + (a + b) && Entries(ts)[0] == e[0];
    assert forall i :: 0 <= i < |a| ==> a[i] == Entries(ts)[1 + i];
    assert forall i :: 0 <= i < |b| ==> b[i] == Entries(ts)[1 + |a| + i];
  }

  /** Of what is written for the tree, the lines that are assignments are those of the symbols
      in the tree, each symbol once, in the order of its first node. */
  lemma {:induction false} WrittenLines(k: Config, w: Writer, ts: Forest, d: Doc)
    requires TextsParse(k, w) && AllHarmless(k, ts)
    ensures var d' := Walk(Writing(w), ts, d);
            && Significant(k, d'.lines) == Significant(k, d.lines) + Texts(w, UniqueSyms(Entries(ts), d.seen))
            && d'.seen == Seen(Entries(ts), d.seen)
  {
    hide ParseLine, Significant, Visit, Leave, Harmless, TextsParse, AllHarmless, Texts, UniqueSyms, Seen;
    if ts == [] {
      NoSyms<MenuNode>(w, d.seen);
    } else {
      var t, e := ts[0], Entry(ts[0].node, ts[0].props);
      var d1 := Visit(w, t.props, d);
      HarmlessParts(k, ts);
      VisitLines(k, w, e, d);
      WrittenLines(k, w, t.kids, d1);
      var d2 := Walk(Writing(w), t.kids, d1);
      LeaveLines(k, w, t.node, t.props, d2);
      var d3 := if t.kids == [] then d1 else Leave(w, t.node, t.props, d2);
      WrittenLines(k, w, ts[1..], d3);
      SymsJoin(w, [e], Entries(t.kids) + Entries(ts[1..]), d.seen);
      SymsJoin(w, Entries(t.kids), Entries(ts[1..]), d1.seen);
      Associate(Significant(k, d.lines), Texts(w, UniqueSyms([e], d.seen)), Texts(w, UniqueSyms(Entries(t.kids), d1.seen)),
                Texts(w, UniqueSyms(Entries(ts[1..]), d3.seen)));
    }
  }

  lemma NoSyms<N>(w: Writer, seen: set<nat>)
    ensures UniqueSyms<N>([], seen) == [] && Seen<N>([], seen) == seen && Texts(w, []) == []
  {
  }

  lemma SymsJoin<N>(w: Writer, a: seq<Entry<N>>, b: seq<Entry<N>>, seen: set<nat>)
    ensures Texts(w, UniqueSyms(a + b, seen)) == Texts(w, UniqueSyms(a, seen)) + Texts(w, UniqueSyms(b, Seen(a, seen)))
    ensures Seen(a + b, seen) == Seen(b, Seen(a, seen))
  {
    UniqueSymsConcat(a, b, seen);
    TextsConcat(w, UniqueSyms(a, seen), UniqueSyms(b, Seen(a, seen)));
  }

  lemma Associate<T>(a: seq<T>, b: seq<T>, c: seq<T>, d: seq<T>)
    ensures a + b + c + d == a + (b + (c + d))
  {
  }

  // The saved file

  /** config_string: the text of a symbol that is kept. */
  ghost predicate WritesKept(k: Config, u: Input, rk: Rank, keep: set<nat>, w: Writer) {
    forall s {:trigger w.text(s)} ::
      w.text(s) == if s in keep then Some(ConfigString(k.Sym(s), StrOf(k, u, rk, s))) else None
  }

  /** Symbols are numbered in the order of their first node. */
  predicate Numbered(syms: seq<nat>, n: nat) {
    |syms| == n && forall i :: 0 <= i < n ==> syms[i] == i
  }

  lemma {:induction false} TextsAreLines(k: Config, u: Input, rk: Rank, keep: set<nat>, w: Writer, syms: seq<nat>, n: nat)
    requires WritesKept(k, u, rk, keep, w) && Numbered(syms, n)
    ensures Texts(w, syms) == ConfigLines(k, u, rk, keep, n)
  {
    hide ConfigString, StrOf;
    if n == 0 {
    } else {
      TextsAreLines(k, u, rk, keep, w, syms[..n - 1], n - 1);
    }
  }

  /** What write_config() writes for the finalized menu tree, comments included, restores all
      values and modes when it is loaded, whatever the instance held before, if and only if no
      value is truncated, and no choice loses its mode. */
  lemma {:induction false} WrittenFileRoundTrip(
      k: Config, u: Input, rk: Rank, u0: Input, w: Writer, ts: Forest, header: seq<string>)
    requires Setting(k, u, rk) && NamesOk(k.syms) && Representable(k, u, rk) && InputOk(k, u0)
    requires WritesKept(k, u, rk, FullKeep(k, u, rk), w) && Numbered(UniqueSyms(Entries(ts), {}), |k.syms|)
    requires AllHarmless(k, ts) && Significant(k, header) == []
    ensures var u' := Load(k, u0, Walk(Writing(w), ts, Doc(header, {}, false)).lines, true);
            var kept := forall s :: 0 <= s < |k.syms| ==> !Truncated(k, u, rk, s);
            && (SameValues(k, u, u', rk) && SameModes(k, u, u', rk) <==> kept && ModesSurvive(k, u, rk, FullKeep(k, u, rk)))
            && (ModesSurvive(k, u, rk, FullKeep(k, u, rk)) ==> (SameValues(k, u, u', rk) <==> kept))
  {
    hide ParseLine, Significant, AllHarmless, ConfigString, Truncated, Load, SameValues, SameModes, ModesSurvive, StrOf, Eval,
      Written, NamesOk, Numbered;
    forall s | w.text(s).Some? ensures ParseLine(k, w.text(s).value).Some? {
      KeptIsDefined(k, u, rk, s);
      if k.Sym(s).ty.Logic() { WrittenText(k, u, rk, s); }
      ConfigStringParsed(k, s, StrOf(k, u, rk, s));
    }
    WrittenLines(k, w, ts, Doc(header, {}, false));
    TextsAreLines(k, u, rk, FullKeep(k, u, rk), w, UniqueSyms(Entries(ts), {}), |k.syms|);
    SaveAndLoad(k, u, rk, u0, Walk(Writing(w), ts, Doc(header, {}, false)).lines);
  }

  lemma KeptIsDefined(k: Config, u: Input, rk: Rank, s: nat)
    requires Ranked(k, rk) && SelsOk(k, u) && s in FullKeep(k, u, rk)
    ensures s < |k.syms| && !k.Sym(s).ty.Unknown?
  {
    if k.Sym(s).ty.Unknown? { UnknownNotWritten(k, u, rk, s); }
  }
}
