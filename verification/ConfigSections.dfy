/** The layout of a .config file: headings, the sections of menus, and blank lines. */
module ConfigSections {
  import opened Wrappers
  import opened Expressions
  import opened MenuTree
  import opened MenuNodes
  import opened MenuWalk
  import opened ConfigFile

  /** The lines that the nodes add to an empty file. */
  function Added(w: Writer, ts: Forest, seen: set<nat>, afterEnd: bool): Doc {
    Walk(Writing(w), ts, Doc([], seen, afterEnd))
  }

  function After(a: seq<string>, d: Doc): Doc {
    d.(lines := a + d.lines)
  }

  lemma VisitAppends(w: Writer, p: Props, a: seq<string>, d: Doc)
    ensures Visit(w, p, After(a, d)) == After(a, Visit(w, p, d))
  {
    if p.item.SymNode? && w.text(p.item.s).Some? {
      var blank := if d.afterEnd then [""] else [];
      assert a + d.lines + blank + [w.text(p.item.s).value] == a + (d.lines + blank + [w.text(p.item.s).value]);
    } else {
      var heading := ["", "#", "# " + p.title, "#"];
      assert a + d.lines + heading == a + (d.lines + heading);
    }
  }

  lemma LeaveAppends(w: Writer, node: MenuNode, p: Props, a: seq<string>, d: Doc)
    ensures Leave(w, node, p, After(a, d)) == After(a, Leave(w, node, p, d))
  {
    assert a + d.lines + ["# end of " + p.title] == a + (d.lines + ["# end of " + p.title]);
  }

  /** What is written does not depend on the lines before. */
  lemma {:induction false} WalkAppends(w: Writer, ts: Forest, a: seq<string>, d: Doc)
    ensures Walk(Writing(w), ts, After(a, d)) == After(a, Walk(Writing(w), ts, d))
  {
    hide Visit, Leave, After;
    if ts == [] {
    } else {
      var t := ts[0];
      VisitAppends(w, t.props, a, d);
      var d1 := Visit(w, t.props, d);
      WalkAppends(w, t.kids, a, d1);
      LeaveAppends(w, t.node, t.props, a, Walk(Writing(w), t.kids, d1));
      var d2 := if t.kids == [] then d1 else Leave(w, t.node, t.props, Walk(Writing(w), t.kids, d1));
      WalkAppends(w, ts[1..], a, d2);
    }
  }

  /** Is there a section for the menu? */
  predicate HasSection(w: Writer, t: Tree<MenuNode>) {
    t.props.item.Menu? && w.holds(t.props.dep) && w.holds(t.props.visibility)
  }

  function Heading(title: string): seq<string> {
    ["", "#", "# " + title, "#"]
  }

  lemma WalkOne(w: Writer, t: Tree<MenuNode>, d: Doc)
    ensures var d1 := Visit(w, t.props, d);
            Walk(Writing(w), [t], d) ==
            if t.kids == [] then d1 else Leave(w, t.node, t.props, Walk(Writing(w), t.kids, d1))
  {
    hide Visit, Leave;
    assert [t][1..] == [];
  }

  /** A menu that holds and is visible gives a section: a heading, what its children give, and a
      line that says which menu ends, if it has children. Other menus give what their children
      give, in the place of the menu. */
  lemma MenuSection(w: Writer, t: Tree<MenuNode>, d: Doc)
    requires t.props.item.Menu? && t.node != w.top
    ensures Walk(Writing(w), [t], d) ==
            if !HasSection(w, t) then Walk(Writing(w), t.kids, d)
            else if t.kids == [] then Doc(d.lines + Heading(t.props.title), d.seen, false)
            else
              var inner := Added(w, t.kids, d.seen, false);
              Doc(d.lines + Heading(t.props.title) + inner.lines + ["# end of " + t.props.title], inner.seen, true)
  {
    hide Walk;
    WalkOne(w, t, d);
    if t.kids == [] { NothingWalked(w, d); }
    if HasSection(w, t) {
      var a := d.lines + Heading(t.props.title);
      assert a + [] == a;
      WalkAppends(w, t.kids, a, Doc([], d.seen, false));
    }
  }

  lemma NothingWalked(w: Writer, d: Doc)
    ensures Walk(Writing(w), [], d) == d
  {
  }

  /** A symbol gives its line, the first time it is met, and is set off by a blank line if a section
      has just ended; a comment that holds gives a heading; ifs and choices give nothing. */
  lemma LeafLines(w: Writer, t: Tree<MenuNode>, d: Doc)
    requires t.kids == [] && !t.props.item.Menu?
    ensures Walk(Writing(w), [t], d) ==
            match t.props.item
            case SymNode(s) =>
              if s in d.seen then d
              else if w.text(s).None? then Doc(d.lines, d.seen + {s}, d.afterEnd)
              else Doc(d.lines + (if d.afterEnd then ["", w.text(s).value] else [w.text(s).value]), d.seen + {s}, false)
            case Comment => if w.holds(t.props.dep) then Doc(d.lines + Heading(t.props.title), d.seen, false) else d
            case _ => d
  {
    WalkOne(w, t, d);
    if t.props.item.SymNode? && w.text(t.props.item.s).Some? {
      var text := w.text(t.props.item.s).value;
      assert d.lines + [""] + [text] == d.lines + ["", text] && d.lines + [] + [text] == d.lines + [text];
    }
  }
}
