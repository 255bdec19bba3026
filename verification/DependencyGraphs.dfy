/** The _dependents sets, built the way Kconfig._build_dep() builds them. */
module DependencyGraphs {
  import opened Wrappers
  import opened Expressions
  import opened Semantics
  import opened Dependencies

  /** The items in 'done' with an expression that mentions 'j'. */
  function Mentioning(k: Config, done: set<Item>, j: Item): set<Item> {
    set i | i in done && Mentions(ItemExprs(k, i), j)
  }

  /** The choices before 'c' that contain symbol 'j', as well as choice 'c' if it has
      the symbol among its first 'n'. */
  function Containing(k: Config, c: nat, n: nat, j: Item): set<Item>
    requires c <= |k.choices| && (c < |k.choices| ==> n <= |k.choices[c].syms|)
  {
    set b | 0 <= b <= c && b < |k.choices| && j.SymItem?
            && j.s in (if b < c then k.choices[b].syms else k.choices[b].syms[..n]) :: ChItem(b)
  }

  class DependencyGraph {
    var dependents: map<Item, set<Item>>

    constructor (k: Config)
      ensures dependents.Keys == AllItems(k) && forall j :: j in dependents ==> dependents[j] == {}
    {
      dependents := map j | j in AllItems(k) :: {};
    }

    /** _depend_on() */
    method DependOn(it: Item, e: Expr)
      requires ExprItems(e) <= dependents.Keys
      modifies this`dependents
      ensures dependents.Keys == old(dependents).Keys
      ensures forall j :: j in dependents ==>
                dependents[j] == old(dependents[j]) + (if j in ExprItems(e) then {it} else {})
      decreases e
    {
      match e
      case Leaf(a) => DependOnAtom(it, a);
      case Mode(c) => dependents := dependents[ChItem(c) := dependents[ChItem(c)] + {it}];
      case And(l, r) => DependOn(it, l); DependOn(it, r);
      case Or(l, r) => DependOn(it, l); DependOn(it, r);
      case Not(x) => DependOn(it, x);
      case Cmp(_, a, b) => DependOnAtom(it, a); DependOnAtom(it, b);
    }

    method DependOnAtom(it: Item, a: Atom)
      requires AtomItems(a) <= dependents.Keys
      modifies this`dependents
      ensures dependents.Keys == old(dependents).Keys
      ensures forall j :: j in dependents ==>
                dependents[j] == old(dependents[j]) + (if j in AtomItems(a) then {it} else {})
    {
      if a.Sym? { dependents := dependents[SymItem(a.id) := dependents[SymItem(a.id)] + {it}]; }
    }

    /** The part of _build_dep() for one item. */
    method DependOnAll(k: Config, it: Item)
      requires dependents.Keys == AllItems(k) && Closed(k) && it in AllItems(k)
      modifies this`dependents
      ensures dependents.Keys == old(dependents).Keys
      ensures forall j :: j in dependents ==>
                dependents[j] == old(dependents[j]) + (if Mentions(ItemExprs(k, it), j) then {it} else {})
    {
      hide AllItems, ItemExprs, ExprItems;
      var es := ItemExprs(k, it);
      for i := 0 to |es|
        invariant dependents.Keys == old(dependents).Keys
        invariant forall j :: j in dependents ==>
                    dependents[j] == old(dependents[j]) + (if Mentions(es[..i], j) then {it} else {})
      {
        forall j | j in ExprItems(es[i]) ensures j in AllItems(k) { assert Mentions(es, j); }
        DependOn(it, es[i]);
        forall j ensures Mentions(es[..i + 1], j) <==> Mentions(es[..i], j) || j in ExprItems(es[i]) {
          MentionsSnoc(es, i, j);
        }
      }
      assert es[..|es|] == es;
    }

    static lemma MentionsSnoc(es: seq<Expr>, i: nat, j: Item)
      requires i < |es|
      ensures Mentions(es[..i + 1], j) <==> Mentions(es[..i], j) || j in ExprItems(es[i])
    {
      hide ExprItems;
      var pre := es[..i];
      assert es[..i + 1] == pre + [es[i]];
      if Mentions(pre, j) {
        var e :| e in pre && j in ExprItems(e);
        assert e in pre + [es[i]];
      }
      if j in ExprItems(es[i]) { assert es[i] in pre + [es[i]]; }
    }

    /** _build_dep(), for all symbols and choices. */
    method BuildDep(k: Config)
      requires dependents.Keys == AllItems(k) && Closed(k)
      requires forall j :: j in dependents ==> dependents[j] == {}
      modifies this`dependents
      ensures dependents.Keys == AllItems(k)
      ensures forall j :: j in dependents ==> dependents[j] == Mentioning(k, AllItems(k), j)
    {
      hide ItemExprs, Mentions, Closed, Mentioning;
      ghost var done: set<Item> := {};
      forall j { NoneMentioning(k, j); }
      for s := 0 to |k.syms|
        invariant dependents.Keys == AllItems(k) && done == set i | 0 <= i < s :: SymItem(i)
        invariant forall j :: j in dependents ==> dependents[j] == Mentioning(k, done, j)
      {
        DependOnAll(k, SymItem(s));
        forall j { OneMore(k, done, SymItem(s), j); }
        done := done + {SymItem(s)};
      }
      for c := 0 to |k.choices|
        invariant dependents.Keys == AllItems(k)
        invariant done == (set i | 0 <= i < |k.syms| :: SymItem(i)) + (set i | 0 <= i < c :: ChItem(i))
        invariant forall j :: j in dependents ==> dependents[j] == Mentioning(k, done, j)
      {
        DependOnAll(k, ChItem(c));
        forall j { OneMore(k, done, ChItem(c), j); }
        done := done + {ChItem(c)};
      }
      assert done == AllItems(k);
    }

    static lemma NoneMentioning(k: Config, j: Item)
      ensures Mentioning(k, {}, j) == {}
    {
    }

    static lemma OneMore(k: Config, done: set<Item>, it: Item, j: Item)
      ensures Mentioning(k, done + {it}, j)
              == Mentioning(k, done, j) + (if Mentions(ItemExprs(k, it), j) then {it} else {})
    {
    }

    /** The part of _add_choice_deps() for one choice. */
    method AddMembers(k: Config, c: nat, ghost base: map<Item, set<Item>>)
      requires c < |k.choices| && Closed(k) && dependents.Keys == base.Keys == AllItems(k)
      requires forall j :: j in dependents ==> dependents[j] == base[j] + Containing(k, c, 0, j)
      modifies this`dependents
      ensures dependents.Keys == AllItems(k)
      ensures forall j :: j in dependents ==> dependents[j] == base[j] + Containing(k, c + 1, 0, j)
    {
      hide ItemExprs, Mentions, Containing;
      var ss := k.choices[c].syms;
      assert k.Choice(c) == k.choices[c];
      for i := 0 to |ss|
        invariant dependents.Keys == AllItems(k)
        invariant forall j :: j in dependents ==> dependents[j] == base[j] + Containing(k, c, i, j)
      {
        assert ss[i] in k.Choice(c).syms;
        forall j { OneMoreSym(k, c, i, j); }
        dependents := dependents[SymItem(ss[i]) := dependents[SymItem(ss[i])] + {ChItem(c)}];
      }
      forall j { NextChoice(k, c, j); }
    }

    /** _add_choice_deps() */
    method AddChoiceDeps(k: Config)
      requires dependents.Keys == AllItems(k) && Closed(k)
      requires forall j :: j in dependents ==> dependents[j] == Mentioning(k, AllItems(k), j)
      modifies this`dependents
      ensures dependents.Keys == AllItems(k)
      ensures forall j :: j in dependents ==> dependents[j] == Dependents(k, j)
    {
      hide ItemExprs, Mentions, Mentioning, Containing, Closed, Dependents;
      ghost var base := dependents;
      forall j { NoneContaining(k, j); }
      for c := 0 to |k.choices|
        invariant dependents.Keys == AllItems(k)
        invariant forall j :: j in dependents ==> dependents[j] == base[j] + Containing(k, c, 0, j)
      {
        AddMembers(k, c, base);
      }
      forall j | j in dependents ensures dependents[j] == Dependents(k, j) { AllContaining(k, j); }
    }

    static lemma NoneContaining(k: Config, j: Item)
      ensures Containing(k, 0, 0, j) == {}
    {
    }

    static lemma OneMoreSym(k: Config, c: nat, n: nat, j: Item)
      requires c < |k.choices| && n < |k.choices[c].syms|
      ensures Containing(k, c, n + 1, j)
              == Containing(k, c, n, j) + (if j == SymItem(k.choices[c].syms[n]) then {ChItem(c)} else {})
    {
      assert k.choices[c].syms[..n + 1] == k.choices[c].syms[..n] + [k.choices[c].syms[n]];
    }

    static lemma NextChoice(k: Config, c: nat, j: Item)
      requires c < |k.choices|
      ensures Containing(k, c + 1, 0, j) == Containing(k, c, |k.choices[c].syms|, j)
    {
      assert k.choices[c].syms[..|k.choices[c].syms|] == k.choices[c].syms;
    }

    static lemma AllContaining(k: Config, j: Item)
      ensures Dependents(k, j) == Mentioning(k, AllItems(k), j) + Containing(k, |k.choices|, 0, j)
    {
      hide ItemExprs, Mentions;
      forall i ensures i in Dependents(k, j)
                       <==> i in Mentioning(k, AllItems(k), j) + Containing(k, |k.choices|, 0, j)
      {
        if i.ChItem? && i.c < |k.choices| { assert k.Choice(i.c) == k.choices[i.c]; }
      }
    }
  }
}
