/** The Kconfig instance: symbols and choices with user values, lazily computed and
    memoised properties, and the invalidation that keeps the caches right. */
module Engine {
  import opened Wrappers
  import opened Tristate
  import opened Numbers
  import opened Expressions
  import opened Evaluation
  import opened Semantics
  import opened Dependencies
  import opened DependencyGraphs
  import opened Invalidation
  import opened Inputs
  import opened ConfigText
  import opened Loading
  import opened ValueLaws
  import opened RoundTrip

  datatype SymCache = SymCache(vis: Option<Tri>, tri: Option<Tri>, str: Option<string>, asg: Option<seq<Tri>>)
  datatype ChCache = ChCache(vis: Option<Tri>, asg: Option<seq<Tri>>, sel: Option<Option<nat>>)

  const NO_SYM_CACHE := SymCache(None, None, None, None)
  const NO_CH_CACHE := ChCache(None, None, None)

  /** The mutable fields of a Symbol. */
  class SymState {
    var userValue: UserVal
    var wasSet: bool
    var writeToConf: bool
    var cachedVis: Option<Tri>
    var cachedTri: Option<Tri>
    var cachedStr: Option<string>
    var cachedAsg: Option<seq<Tri>>

    constructor ()
      ensures BlankSym(this)
    {
      userValue, wasSet, writeToConf := NoVal, false, false;
      cachedVis, cachedTri, cachedStr, cachedAsg := None, None, None, None;
    }
  }

  /** The mutable fields of a Choice. */
  class ChState {
    var userValue: Option<Tri>
    var userSelection: Option<nat>
    var wasSet: bool
    var cachedVis: Option<Tri>
    var cachedAsg: Option<seq<Tri>>
    var cachedSel: Option<Option<nat>>

    constructor ()
      ensures BlankCh(this)
    {
      userValue, userSelection, wasSet := None, None, false;
      cachedVis, cachedAsg, cachedSel := None, None, None;
    }
  }

  predicate BlankSym(o: SymState)
    reads o
  {
    && o.userValue == NoVal && !o.wasSet && !o.writeToConf
    && o.cachedVis.None? && o.cachedTri.None? && o.cachedStr.None? && o.cachedAsg.None?
  }

  predicate BlankCh(o: ChState)
    reads o
  {
    && o.userValue.None? && o.userSelection.None? && !o.wasSet
    && o.cachedVis.None? && o.cachedAsg.None? && o.cachedSel.None?
  }

  class Kconfig {
    const k: Config
    const syms: seq<SymState>
    const choices: seq<ChState>
    var dependents: map<Item, set<Item>>

    ghost const rk: Rank
    ghost var input: Input     // the user's input, as a value
    ghost var vis: set<Item>   // the items with a cached visibility
    ghost var live: set<Slot>  // the properties that the cached values rest on

    // Invariants

    /** What never changes once the instance is set up. */
    ghost predicate Shape()
      reads this`dependents
    {
      && |syms| == |k.syms| && |choices| == |k.choices|
      && (forall i, j :: 0 <= i < j < |syms| ==> syms[i] != syms[j])
      && (forall i, j :: 0 <= i < j < |choices| ==> choices[i] != choices[j])
      && WellFormed(k) && Ranked(k, rk)
      && dependents.Keys == AllItems(k)
      && (forall j :: j in dependents ==> dependents[j] == Dependents(k, j))
    }

    /** 'input' and 'vis' mirror the fields of symbol 's'. */
    ghost predicate SymMirrored(s: nat)
      requires s < |syms|
      reads this`input, this`vis, syms[s]
    {
      && s < |input.vals| && s < |input.symSet|
      && input.vals[s] == syms[s].userValue && input.symSet[s] == syms[s].wasSet
      && (SymItem(s) in vis <==> syms[s].cachedVis.Some?)
    }

    ghost predicate ChMirrored(c: nat)
      requires c < |choices|
      reads this`input, this`vis, choices[c]
    {
      && c < |input.modes| && c < |input.sels| && c < |input.chSet|
      && input.modes[c] == choices[c].userValue && input.sels[c] == choices[c].userSelection
      && input.chSet[c] == choices[c].wasSet
      && (ChItem(c) in vis <==> choices[c].cachedVis.Some?)
    }

    ghost predicate Mirrored()
      reads this`input, this`vis, syms, choices
    {
      && |input.vals| == |input.symSet| == |syms|
      && |input.modes| == |input.sels| == |input.chSet| == |choices|
      && (forall s :: 0 <= s < |syms| ==> SymMirrored(s))
      && (forall c :: 0 <= c < |choices| ==> ChMirrored(c))
      && vis <= AllItems(k)
    }

    /** What is cached for symbol 's' is what evaluation from scratch gives. */
    ghost predicate SymCoherent(s: nat)
      requires s < |syms|
      reads this`input, this`live, syms[s]
    {
      var o, d := syms[s], k.Sym(s);
      && (o.cachedVis.Some? ==>
            SymVis(s) in live && Eval(k, input, rk, SymVis(s)) == TriV(o.cachedVis.value, false))
      && (o.cachedTri.Some? ==>
            SymTri(s) in live && Eval(k, input, rk, SymTri(s)) == TriV(o.cachedTri.value, d.ty.Logic() && o.writeToConf))
      && (o.cachedStr.Some? ==>
            SymStr(s) in live
            && Eval(k, input, rk, SymStr(s)) == StrV(o.cachedStr.value, !d.ty.Logic() && !d.ty.Unknown? && o.writeToConf))
      && (o.cachedAsg.Some? ==>
            SymAsg(s) in live && Eval(k, input, rk, SymAsg(s)) == AsgV(o.cachedAsg.value))
      && (d.ty.Logic() && o.cachedStr.Some? ==> o.cachedTri.Some?)
      && (d.ty.Unknown? ==> !o.writeToConf)
    }

    ghost predicate ChCoherent(c: nat)
      requires c < |choices|
      reads this`input, this`live, choices[c]
    {
      var o := choices[c];
      && (o.cachedVis.Some? ==> ChVis(c) in live && Eval(k, input, rk, ChVis(c)) == TriV(o.cachedVis.value, false))
      && (o.cachedSel.Some? ==> ChSel(c) in live && Eval(k, input, rk, ChSel(c)) == SelV(o.cachedSel.value))
      && (o.cachedAsg.Some? ==> ChAsg(c) in live && Eval(k, input, rk, ChAsg(c)) == AsgV(o.cachedAsg.value))
    }

    ghost predicate Coherent()
      reads this`input, this`live, syms, choices
    {
      && (forall s :: 0 <= s < |syms| ==> SymCoherent(s))
      && (forall c :: 0 <= c < |choices| ==> ChCoherent(c))
    }

    /** The class invariant: every cached value agrees with evaluation from scratch, and
        everything that was read for a cached value is live, on items with a cached
        visibility. */
    ghost predicate Valid()
      reads this, syms, choices
    {
      Shape() && Mirrored() && InputOk(k, input) && Closure(k, input, rk, live, vis) && Coherent()
    }

    /** Reading a property only adds to the caches. */
    twostate predicate Kept()
      reads this, syms, choices
    {
      && Valid() && input == old(input) && dependents == old(dependents)
      && old(live) <= live && old(vis) <= vis
    }

    /** Recording a property whose reads are all live keeps the closure. */
    lemma Grown(slot: Slot, vis': set<Item>)
      requires Shape() && InputOk(k, input) && Closure(k, input, rk, live, vis)
      requires slot.Owner() in AllItems(k) && Step(k, input, slot, Values(k, input, rk)).rd <= live
      requires vis <= vis' && (Fixed(k, slot) || slot.Owner() in vis')
      ensures Closure(k, input, rk, live + {slot}, vis')
      ensures Eval(k, input, rk, slot) == Step(k, input, slot, Values(k, input, rk)).v
    {
      EvalStep(k, input, rk, slot);
      forall r | Live(r, live + {slot})
        ensures r.Owner() in AllItems(k) && (Hidden(k, r) || Step(k, input, r, Values(k, input, rk)).rd <= live + {slot})
        ensures Fixed(k, r) || r.Owner() in vis'
      {
        if r != slot { assert Live(r, live); }
      }
    }

    /** Changes to the fields of one item leave the invariants of the others alone. */
    twostate lemma Framed(it: Item)
      requires old(Mirrored()) && old(Coherent())
      requires input == old(input) && old(live) <= live
      requires forall j :: j != it ==> (j in vis <==> j in old(vis))
      requires forall i {:trigger syms[i]} :: 0 <= i < |syms| && it != SymItem(i) ==> unchanged(syms[i])
      requires forall i {:trigger choices[i]} :: 0 <= i < |choices| && it != ChItem(i) ==> unchanged(choices[i])
      ensures forall s :: 0 <= s < |syms| && it != SymItem(s) ==> SymMirrored(s)
      ensures forall c :: 0 <= c < |choices| && it != ChItem(c) ==> ChMirrored(c)
      ensures forall s :: 0 <= s < |syms| && it != SymItem(s) ==> SymCoherent(s)
      ensures forall c :: 0 <= c < |choices| && it != ChItem(c) ==> ChCoherent(c)
    {
      hide Eval;
      forall s | 0 <= s < |syms| && it != SymItem(s) ensures SymMirrored(s) && SymCoherent(s) {
        assert old(SymMirrored(s)) && old(SymCoherent(s));
      }
      forall c | 0 <= c < |choices| && it != ChItem(c) ensures ChMirrored(c) && ChCoherent(c) {
        assert old(ChMirrored(c)) && old(ChCoherent(c));
      }
    }

    /** What holds for one item, and for all others, holds for all. */
    lemma AllHold(it: Item)
      requires |input.vals| == |input.symSet| == |syms| && |input.modes| == |input.sels| == |input.chSet| == |choices|
      requires vis <= AllItems(k)
      requires forall s :: 0 <= s < |syms| && it != SymItem(s) ==> SymMirrored(s) && SymCoherent(s)
      requires forall c :: 0 <= c < |choices| && it != ChItem(c) ==> ChMirrored(c) && ChCoherent(c)
      requires it.SymItem? && it.s < |syms| ==> SymMirrored(it.s) && SymCoherent(it.s)
      requires it.ChItem? && it.c < |choices| ==> ChMirrored(it.c) && ChCoherent(it.c)
      ensures Mirrored() && Coherent()
    {
      hide SymMirrored, ChMirrored, SymCoherent, ChCoherent, AllItems;
    }

    /** Step(), one property at a time. */
    lemma StepOf(slot: Slot)
      ensures var env := Values(k, input, rk);
              Step(k, input, slot, env) ==
              match slot
              case SymVis(s) => var o := SymVisOut(k, s, env); Out(TriV(o.v, false), o.rd)
              case SymTri(s) => var o := SymTriOut(k, input.Val(s), s, env); Out(TriV(o.v.0, o.v.1), o.rd)
              case SymStr(s) => var o := SymStrOut(k, input.Val(s), s, env); Out(StrV(o.v.0, o.v.1), o.rd)
              case SymAsg(s) => var o := SymAsgOut(k, s, env); Out(AsgV(o.v), o.rd)
              case ChVis(c) => var o := ChVisOut(k, c, env); Out(TriV(o.v, false), o.rd)
              case ChMode(c) => var o := ChModeOut(k, input.Mode(c), c, env); Out(TriV(o.v, false), o.rd)
              case ChSel(c) => var o := ChSelOut(k, input.Sel(c), c, env); Out(SelV(o.v), o.rd)
              case ChAsg(c) => var o := ChAsgOut(k, c, env); Out(AsgV(o.v), o.rd)
    {
    }

    // Writing to a cache

    method RememberSymVis(s: nat, v: Tri)
      requires Valid() && s < |syms|
      requires TriV(v, false) == Step(k, input, SymVis(s), Values(k, input, rk)).v
      requires Step(k, input, SymVis(s), Values(k, input, rk)).rd <= live
      modifies this`live, this`vis, syms
      ensures Eval(k, input, rk, SymVis(s)) == TriV(v, false)
      ensures Kept() && live == old(live) + {SymVis(s)} && SymItem(s) in vis
    {
      hide Step, WellFormed, Closure, Values, Eval, InputOk, Ranked, Dependents;
      Grown(SymVis(s), vis + {SymItem(s)});
      assert SymMirrored(s) && SymCoherent(s);
      syms[s].cachedVis := Some(v);
      live := live + {SymVis(s)};
      vis := vis + {SymItem(s)};
      Framed(SymItem(s));
      assert SymMirrored(s) && SymCoherent(s);
      AllHold(SymItem(s));
    }

    method RememberSymTri(s: nat, v: Tri, write: bool)
      requires Valid() && s < |syms| && (Fixed(k, SymTri(s)) || SymItem(s) in vis)
      requires write ==> k.syms[s].ty.Logic()
      requires TriV(v, write) == Step(k, input, SymTri(s), Values(k, input, rk)).v
      requires Step(k, input, SymTri(s), Values(k, input, rk)).rd <= live
      modifies this`live, this`vis, syms
      ensures Eval(k, input, rk, SymTri(s)) == TriV(v, write)
      ensures Kept() && live == old(live) + {SymTri(s)} && vis == old(vis) && syms[s].cachedTri == Some(v)
    {
      hide Step, WellFormed, Closure, Values, Eval, InputOk, Ranked, Dependents;
      Grown(SymTri(s), vis);
      assert SymMirrored(s) && SymCoherent(s);
      syms[s].cachedTri := Some(v);
      if k.syms[s].ty.Logic() { syms[s].writeToConf := write; }
      live := live + {SymTri(s)};
      Framed(SymItem(s));
      assert SymMirrored(s) && SymCoherent(s);
      AllHold(SymItem(s));
    }

    method RememberSymStr(s: nat, v: string, write: bool)
      requires Valid() && s < |syms| && (Fixed(k, SymStr(s)) || SymItem(s) in vis)
      requires write ==> !k.syms[s].ty.Logic() && !k.syms[s].ty.Unknown?
      requires k.syms[s].ty.Logic() ==> syms[s].cachedTri.Some?
      requires StrV(v, write) == Step(k, input, SymStr(s), Values(k, input, rk)).v
      requires Step(k, input, SymStr(s), Values(k, input, rk)).rd <= live
      modifies this`live, this`vis, syms
      ensures Eval(k, input, rk, SymStr(s)) == StrV(v, write)
      ensures Kept() && live == old(live) + {SymStr(s)} && vis == old(vis) && syms[s].cachedStr == Some(v)
    {
      hide Step, WellFormed, Closure, Values, Eval, InputOk, Ranked, Dependents;
      Grown(SymStr(s), vis);
      assert SymMirrored(s) && SymCoherent(s);
      syms[s].cachedStr := Some(v);
      if !k.syms[s].ty.Logic() && !k.syms[s].ty.Unknown? { syms[s].writeToConf := write; }
      live := live + {SymStr(s)};
      Framed(SymItem(s));
      assert SymMirrored(s) && SymCoherent(s);
      AllHold(SymItem(s));
    }

    method RememberSymAsg(s: nat, v: seq<Tri>)
      requires Valid() && s < |syms| && (Fixed(k, SymAsg(s)) || SymItem(s) in vis)
      requires AsgV(v) == Step(k, input, SymAsg(s), Values(k, input, rk)).v
      requires Step(k, input, SymAsg(s), Values(k, input, rk)).rd <= live
      modifies this`live, this`vis, syms
      ensures Eval(k, input, rk, SymAsg(s)) == AsgV(v)
      ensures Kept() && live == old(live) + {SymAsg(s)} && vis == old(vis)
    {
      hide Step, WellFormed, Closure, Values, Eval, InputOk, Ranked, Dependents;
      Grown(SymAsg(s), vis);
      assert SymMirrored(s) && SymCoherent(s);
      syms[s].cachedAsg := Some(v);
      live := live + {SymAsg(s)};
      Framed(SymItem(s));
      assert SymMirrored(s) && SymCoherent(s);
      AllHold(SymItem(s));
    }

    method RememberChVis(c: nat, v: Tri)
      requires Valid() && c < |choices|
      requires TriV(v, false) == Step(k, input, ChVis(c), Values(k, input, rk)).v
      requires Step(k, input, ChVis(c), Values(k, input, rk)).rd <= live
      modifies this`live, this`vis, choices
      ensures Eval(k, input, rk, ChVis(c)) == TriV(v, false)
      ensures Kept() && live == old(live) + {ChVis(c)} && ChItem(c) in vis
    {
      hide Step, WellFormed, Closure, Values, Eval, InputOk, Ranked, Dependents;
      Grown(ChVis(c), vis + {ChItem(c)});
      assert ChMirrored(c) && ChCoherent(c);
      choices[c].cachedVis := Some(v);
      live := live + {ChVis(c)};
      vis := vis + {ChItem(c)};
      Framed(ChItem(c));
      assert ChMirrored(c) && ChCoherent(c);
      AllHold(ChItem(c));
    }

    method RememberChSel(c: nat, v: Option<nat>)
      requires Valid() && c < |choices| && ChItem(c) in vis
      requires SelV(v) == Step(k, input, ChSel(c), Values(k, input, rk)).v
      requires Step(k, input, ChSel(c), Values(k, input, rk)).rd <= live
      modifies this`live, this`vis, choices
      ensures Eval(k, input, rk, ChSel(c)) == SelV(v)
      ensures Kept() && live == old(live) + {ChSel(c)} && vis == old(vis)
    {
      hide Step, WellFormed, Closure, Values, Eval, InputOk, Ranked, Dependents;
      Grown(ChSel(c), vis);
      assert ChMirrored(c) && ChCoherent(c);
      choices[c].cachedSel := Some(v);
      live := live + {ChSel(c)};
      Framed(ChItem(c));
      assert ChMirrored(c) && ChCoherent(c);
      AllHold(ChItem(c));
    }

    method RememberChAsg(c: nat, v: seq<Tri>)
      requires Valid() && c < |choices| && ChItem(c) in vis
      requires AsgV(v) == Step(k, input, ChAsg(c), Values(k, input, rk)).v
      requires Step(k, input, ChAsg(c), Values(k, input, rk)).rd <= live
      modifies this`live, this`vis, choices
      ensures Eval(k, input, rk, ChAsg(c)) == AsgV(v)
      ensures Kept() && live == old(live) + {ChAsg(c)} && vis == old(vis)
    {
      hide Step, WellFormed, Closure, Values, Eval, InputOk, Ranked, Dependents;
      Grown(ChAsg(c), vis);
      assert ChMirrored(c) && ChCoherent(c);
      choices[c].cachedAsg := Some(v);
      live := live + {ChAsg(c)};
      Framed(ChItem(c));
      assert ChMirrored(c) && ChCoherent(c);
      AllHold(ChItem(c));
    }

    /** The mode of a choice is not cached, but what it was read from is live. */
    ghost method RememberMode(c: nat)
      requires Valid() && c < |choices| && ChItem(c) in vis
      requires Step(k, input, ChMode(c), Values(k, input, rk)).rd <= live
      modifies this`live
      ensures Eval(k, input, rk, ChMode(c)) == Step(k, input, ChMode(c), Values(k, input, rk)).v
      ensures Kept() && live == old(live) + {ChMode(c)} && vis == old(vis)
    {
      hide Step, WellFormed, Closure, Values, Eval, InputOk, Ranked, Dependents;
      Grown(ChMode(c), vis);
      live := live + {ChMode(c)};
      Framed(ChItem(c));
      assert old(ChCoherent(c));
      assert ChMirrored(c) && ChCoherent(c);
      AllHold(ChItem(c));
    }

    // Termination: evaluation only ever asks for properties of lower rank

    /** All properties in 'e' exist and rank below 'top'. */
    ghost predicate Usable(e: Expr, top: nat) {
      && ExprItems(e) <= AllItems(k)
      && (forall r :: r in ExprSlots(e) ==> RankOf(rk, r) < top)
    }

    ghost predicate AllUsable(es: seq<Expr>, top: nat) {
      forall e :: e in es ==> Usable(e, top)
    }

    lemma Lower(slot: Slot, r: Slot)
      requires Shape() && r in StaticReads(k, slot)
      ensures RankOf(rk, r) < RankOf(rk, slot)
    {
    }

    lemma UsableIn(slot: Slot, es: seq<Expr>)
      requires Shape() && slot.Owner() in AllItems(k)
      requires forall e :: e in es ==> e in ItemExprs(k, slot.Owner())
      requires ExprsSlots(es) <= StaticReads(k, slot)
      ensures AllUsable(es, RankOf(rk, slot))
    {
      forall e | e in es ensures Usable(e, RankOf(rk, slot)) {
        forall j | j in ExprItems(e) ensures j in AllItems(k) {
          assert Mentions(ItemExprs(k, slot.Owner()), j);
        }
        forall r | r in ExprSlots(e) ensures RankOf(rk, r) < RankOf(rk, slot) {
          assert r in ExprsSlots(es);
          Lower(slot, r);
        }
      }
    }

    lemma AskableIn(slot: Slot, r: Slot)
      requires Shape() && slot.Owner() in AllItems(k) && r in StaticReads(k, slot)
      ensures Askable(r, RankOf(rk, slot))
    {
      Lower(slot, r);
      ReadsAreReached(k, slot, r);
    }

    // expr_value()

    /** A slot that can be asked for while computing something of rank 'top'. */
    ghost predicate Askable(slot: Slot, top: nat) {
      slot.Owner() in AllItems(k) && RankOf(rk, slot) < top
    }

    ghost predicate AtomUsable(a: Atom, top: nat) {
      a.Sym? ==> Askable(SymTri(a.id), top) && Askable(SymStr(a.id), top)
    }

    method AtomTriValue(a: Atom, ghost top: nat) returns (t: Tri)
      requires Valid() && AtomUsable(a, top)
      modifies this`live, this`vis, syms, choices
      ensures Kept()
      ensures t == AtomTri(a, Values(k, input, rk)).v && AtomTri(a, Values(k, input, rk)).rd <= live
      decreases top, 0
    {
      hide Step, WellFormed, Closure, Values, Eval, InputOk, Ranked, Dependents, SymCoherent, ChCoherent,
        SymMirrored, ChMirrored;
      match a
      case Const(name) => t := if name in NMY then StrToTri(name) else 0;
      case Sym(s) =>
        t := SymTriValue(s);
        GetValue(k, input, rk, SymTri(s));
    }

    method AtomStrValue(a: Atom, ghost top: nat) returns (x: string)
      requires Valid() && AtomUsable(a, top)
      modifies this`live, this`vis, syms, choices
      ensures Kept()
      ensures x == AtomStr(a, Values(k, input, rk)).v && AtomStr(a, Values(k, input, rk)).rd <= live
      decreases top, 0
    {
      hide Step, WellFormed, Closure, Values, Eval, InputOk, Ranked, Dependents, SymCoherent, ChCoherent,
        SymMirrored, ChMirrored;
      match a
      case Const(name) => x := name;
      case Sym(s) =>
        x := SymStrValue(s);
        GetValue(k, input, rk, SymStr(s));
    }

    /** _sym_to_num() */
    method AtomNumValue(a: Atom, ghost top: nat) returns (n: Option<int>)
      requires Valid() && AtomUsable(a, top)
      modifies this`live, this`vis, syms, choices
      ensures Kept()
      ensures n == AtomNum(k, a, Values(k, input, rk)).v && AtomNum(k, a, Values(k, input, rk)).rd <= live
      decreases top, 1
    {
      hide Step, WellFormed, Closure, Values, Eval, InputOk, Ranked, Dependents, SymCoherent, ChCoherent,
        SymMirrored, ChMirrored;
      var ty := k.TypeOf(a);
      if ty.Logic() {
        var t := AtomTriValue(a, top);
        n := Some(t);
      } else {
        var x := AtomStrValue(a, top);
        n := ParseInt(x, ty.Base());
      }
    }

    method CompareStrings(a: Atom, b: Atom, ghost top: nat) returns (comp: int)
      requires Valid() && AtomUsable(a, top) && AtomUsable(b, top)
      modifies this`live, this`vis, syms, choices
      ensures Kept()
      ensures comp == StrCmpAtoms(a, b, Values(k, input, rk)).v && StrCmpAtoms(a, b, Values(k, input, rk)).rd <= live
      decreases top, 1
    {
      hide Step, WellFormed, Closure, Values, Eval, InputOk, Ranked, Dependents, SymCoherent, ChCoherent,
        SymMirrored, ChMirrored;
      var x := AtomStrValue(a, top);
      var y := AtomStrValue(b, top);
      comp := StrCmp(x, y);
    }

    method CompareValues(a: Atom, b: Atom, ghost top: nat) returns (comp: int)
      requires Valid() && AtomUsable(a, top) && AtomUsable(b, top)
      modifies this`live, this`vis, syms, choices
      ensures Kept()
      ensures comp == CompareAtoms(k, a, b, Values(k, input, rk)).v && CompareAtoms(k, a, b, Values(k, input, rk)).rd <= live
      decreases top, 2
    {
      hide Step, WellFormed, Closure, Values, Eval, InputOk, Ranked, Dependents, SymCoherent, ChCoherent,
        SymMirrored, ChMirrored;
      if k.TypeOf(a).String? && k.TypeOf(b).String? {
        comp := CompareStrings(a, b, top);
      } else {
        var x := AtomNumValue(a, top);
        if x.None? {
          comp := CompareStrings(a, b, top);
        } else {
          var y := AtomNumValue(b, top);
          if y.None? {
            comp := CompareStrings(a, b, top);
          } else {
            comp := x.value - y.value;
          }
        }
      }
    }

    method ExprValue(e: Expr, ghost top: nat) returns (t: Tri)
      requires Valid() && Usable(e, top)
      modifies this`live, this`vis, syms, choices
      ensures Kept()
      ensures t == ExprOut(k, e, Values(k, input, rk)).v && ExprOut(k, e, Values(k, input, rk)).rd <= live
      decreases top, 3, e
    {
      hide Step, WellFormed, Closure, Values, Eval, InputOk, Ranked, Dependents, SymCoherent, ChCoherent,
        SymMirrored, ChMirrored;
      match e
      case Leaf(a) => t := AtomTriValue(a, top);
      case Mode(c) =>
        t := ChModeValue(c);
        GetValue(k, input, rk, ChMode(c));
      case And(l, r) =>
        t := ExprValue(l, top);
        if t != 0 {
          var y := ExprValue(r, top);
          t := Min(t, y);
        }
      case Or(l, r) =>
        t := ExprValue(l, top);
        if t != 2 {
          var y := ExprValue(r, top);
          t := Max(t, y);
        }
      case Not(x) =>
        var y := ExprValue(x, top);
        t := 2 - y;
      case Cmp(rel, a, b) =>
        var comp := CompareValues(a, b, top);
        t := if RelHolds(rel, comp) then 2 else 0;
    }

    // Lists of properties

    method PromptsValue(ps: seq<Expr>, ghost top: nat) returns (t: Tri)
      requires Valid() && AllUsable(ps, top)
      modifies this`live, this`vis, syms, choices
      ensures Kept()
      ensures t == PromptsOut(k, ps, |ps|, Values(k, input, rk)).v && PromptsOut(k, ps, |ps|, Values(k, input, rk)).rd <= live
      decreases top, 4
    {
      hide Step, WellFormed, Closure, Values, Eval, InputOk, Ranked, Dependents, SymCoherent, ChCoherent,
        SymMirrored, ChMirrored;
      t := 0;
      for i := 0 to |ps|
        invariant Kept()
        invariant t == PromptsOut(k, ps, i, Values(k, input, rk)).v && PromptsOut(k, ps, i, Values(k, input, rk)).rd <= live
      {
        var x := ExprValue(ps[i], top);
        t := Max(t, x);
      }
    }

    /** The first condition that is not n, with its value. */
    method FirstActive(conds: seq<Expr>, ghost top: nat) returns (r: Option<(nat, Tri)>)
      requires Valid() && AllUsable(conds, top)
      modifies this`live, this`vis, syms, choices
      ensures Kept()
      ensures r == FirstTrue(k, conds, 0, Values(k, input, rk)).v && FirstTrue(k, conds, 0, Values(k, input, rk)).rd <= live
      decreases top, 4
    {
      hide Step, WellFormed, Closure, Values, Eval, InputOk, Ranked, Dependents, SymCoherent, ChCoherent,
        SymMirrored, ChMirrored;
      ghost var done: set<Slot> := {};
      for i := 0 to |conds|
        invariant Kept() && done <= live
        invariant FirstTrue(k, conds, 0, Values(k, input, rk)).v == FirstTrue(k, conds, i, Values(k, input, rk)).v
        invariant FirstTrue(k, conds, 0, Values(k, input, rk)).rd == done + FirstTrue(k, conds, i, Values(k, input, rk)).rd
      {
        var x := ExprValue(conds[i], top);
        if x != 0 { return Some((i, x)); }
        done := done + ExprOut(k, conds[i], Values(k, input, rk)).rd;
      }
      r := None;
    }

    // Types and visibility

    method ModulesTriValue(ghost top: nat) returns (t: Tri)
      requires Valid() && (k.modules.Some? ==> Askable(SymTri(k.modules.value), top))
      modifies this`live, this`vis, syms, choices
      ensures Kept()
      ensures t == ModulesTri(k, Values(k, input, rk)).v && ModulesTri(k, Values(k, input, rk)).rd <= live
      decreases top, 1
    {
      hide Step, WellFormed, Closure, Values, Eval, InputOk, Ranked, Dependents, SymCoherent, ChCoherent,
        SymMirrored, ChMirrored;
      match k.modules
      case None => t := 0;
      case Some(m) =>
        t := SymTriValue(m);
        GetValue(k, input, rk, SymTri(m));
    }

    /** Symbol.type */
    method SymTypeValue(s: nat, ghost top: nat) returns (ty: Ty)
      requires Valid() && s < |syms|
      requires forall r :: r in TypeSlots(k, s) ==> Askable(r, top)
      modifies this`live, this`vis, syms, choices
      ensures Kept()
      ensures ty == SymType(k, s, Values(k, input, rk)).v && SymType(k, s, Values(k, input, rk)).rd <= live
      decreases top, 2
    {
      hide Step, WellFormed, Closure, Values, Eval, InputOk, Ranked, Dependents, SymCoherent, ChCoherent,
        SymMirrored, ChMirrored;
      var d := k.syms[s];
      ty := d.ty;
      if d.ty.Tristate? {
        var mode: Tri := 0;
        if d.choice.Some? {
          assert ChMode(d.choice.value) in TypeSlots(k, s);
          mode := ChModeValue(d.choice.value);
          GetValue(k, input, rk, ChMode(d.choice.value));
        }
        if mode == 2 {
          ty := Bool;
        } else {
          assert k.modules.Some? ==> SymTri(k.modules.value) in TypeSlots(k, s);
          var mods := ModulesTriValue(top);
          if mods == 0 { ty := Bool; }
        }
      }
    }

    /** Choice.type */
    method ChTypeValue(c: nat, ghost top: nat) returns (ty: Ty)
      requires Valid() && c < |choices|
      requires forall r :: r in ChTypeSlots(k, c) ==> Askable(r, top)
      modifies this`live, this`vis, syms, choices
      ensures Kept()
      ensures ty == ChType(k, c, Values(k, input, rk)).v && ChType(k, c, Values(k, input, rk)).rd <= live
      decreases top, 2
    {
      hide Step, WellFormed, Closure, Values, Eval, InputOk, Ranked, Dependents, SymCoherent, ChCoherent,
        SymMirrored, ChMirrored;
      ty := k.choices[c].ty;
      if ty.Tristate? {
        assert k.modules.Some? ==> SymTri(k.modules.value) in ChTypeSlots(k, c);
        var mods := ModulesTriValue(top);
        if mods == 0 { ty := Bool; }
      }
    }

    method SymVisWorker(s: nat, ghost top: nat) returns (v: Tri)
      requires Valid() && s < |syms| && top == RankOf(rk, SymVis(s))
      modifies this`live, this`vis, syms, choices
      ensures Kept()
      ensures v == SymVisOut(k, s, Values(k, input, rk)).v && SymVisOut(k, s, Values(k, input, rk)).rd <= live
      decreases top, 5
    {
      hide Step, WellFormed, Closure, Values, Eval, InputOk, Ranked, Dependents, SymCoherent, ChCoherent,
        SymMirrored, ChMirrored;
      var d := k.syms[s];
      UsableIn(SymVis(s), d.prompts);
      forall r | r in TypeSlots(k, s) ensures Askable(r, top) { AskableIn(SymVis(s), r); }
      v := PromptsValue(d.prompts, top);
      if d.choice.Some? {
        var c := d.choice.value;
        assert ChMode(c) in TypeSlots(k, s);
        if k.Choice(c).ty.Tristate? && !d.ty.Tristate? {
          var mode := ChModeValue(c);
          GetValue(k, input, rk, ChMode(c));
          if mode != 2 { return 0; }
        }
        if d.ty.Tristate? && v == 1 {
          var mode := ChModeValue(c);
          GetValue(k, input, rk, ChMode(c));
          if mode == 2 { return 0; }
        }
      }
      if v == 1 {
        var ty := SymTypeValue(s, top);
        if !ty.Tristate? { v := 2; }
      }
    }

    /** Symbol.visibility */
    method SymVisibility(s: nat) returns (v: Tri)
      requires Valid() && s < |syms|
      modifies this`live, this`vis, syms, choices
      ensures Kept()
      ensures v == Eval(k, input, rk, SymVis(s)).AsTri() && SymVis(s) in live && SymItem(s) in vis
      decreases RankOf(rk, SymVis(s)), 6
    {
      hide Step, WellFormed, Closure, Values, Eval, InputOk, Ranked, Dependents;
      assert SymCoherent(s) && SymMirrored(s);
      if syms[s].cachedVis.Some? { return syms[s].cachedVis.value; }
      v := SymVisWorker(s, RankOf(rk, SymVis(s)));
      StepOf(SymVis(s));
      RememberSymVis(s, v);
      assert SymCoherent(s);
    }

    method ChVisWorker(c: nat, ghost top: nat) returns (v: Tri)
      requires Valid() && c < |choices| && top == RankOf(rk, ChVis(c))
      modifies this`live, this`vis, syms, choices
      ensures Kept()
      ensures v == ChVisOut(k, c, Values(k, input, rk)).v && ChVisOut(k, c, Values(k, input, rk)).rd <= live
      decreases top, 5
    {
      hide Step, WellFormed, Closure, Values, Eval, InputOk, Ranked, Dependents, SymCoherent, ChCoherent,
        SymMirrored, ChMirrored;
      UsableIn(ChVis(c), k.choices[c].prompts);
      forall r | r in ChTypeSlots(k, c) ensures Askable(r, top) { AskableIn(ChVis(c), r); }
      v := PromptsValue(k.choices[c].prompts, top);
      if v == 1 {
        var ty := ChTypeValue(c, top);
        if !ty.Tristate? { v := 2; }
      }
    }

    /** Choice.visibility */
    method ChVisibility(c: nat) returns (v: Tri)
      requires Valid() && c < |choices|
      modifies this`live, this`vis, syms, choices
      ensures Kept()
      ensures v == Eval(k, input, rk, ChVis(c)).AsTri() && ChVis(c) in live && ChItem(c) in vis
      decreases RankOf(rk, ChVis(c)), 6
    {
      hide Step, WellFormed, Closure, Values, Eval, InputOk, Ranked, Dependents;
      assert ChCoherent(c) && ChMirrored(c);
      if choices[c].cachedVis.Some? { return choices[c].cachedVis.value; }
      v := ChVisWorker(c, RankOf(rk, ChVis(c)));
      StepOf(ChVis(c));
      RememberChVis(c, v);
      assert ChCoherent(c);
    }

    /** Choice.tri_value, the mode; it is computed anew each time. */
    method ChModeValue(c: nat) returns (t: Tri)
      requires Valid() && c < |choices|
      modifies this`live, this`vis, syms, choices
      ensures Kept()
      ensures t == Eval(k, input, rk, ChMode(c)).AsTri() && ChMode(c) in live && ChItem(c) in vis
      decreases RankOf(rk, ChMode(c)), 6
    {
      hide Step, WellFormed, Closure, Values, Eval, InputOk, Ranked, Dependents, SymCoherent, ChCoherent, SymMirrored;
      var d := k.choices[c];
      ghost var top := RankOf(rk, ChMode(c));
      forall r | r in ChTypeSlots(k, c) ensures Askable(r, top) { AskableIn(ChMode(c), r); }
      Lower(ChMode(c), ChVis(c));
      assert ChMirrored(c);
      t := if d.optional then 0 else 1;
      if choices[c].userValue.Some? { t := Max(t, choices[c].userValue.value); }
      var v := ChVisibility(c);
      GetValue(k, input, rk, ChVis(c));
      t := Min(t, v);
      if t == 1 {
        var ty := ChTypeValue(c, top);
        if ty.Bool? { t := 2; }
      }
      StepOf(ChMode(c));
      RememberMode(c);
    }

    // Logic values

    /** The expressions that the value of a non-choice bool or tristate symbol uses. */
    ghost predicate PlainUsable(s: nat, top: nat) {
      var d := k.Sym(s);
      && AllUsable(DefaultConds(d.defaults), top)
      && (forall i :: 0 <= i < |d.defaults| ==> Usable(d.defaults[i].value, top))
      && Usable(d.weakRevDep, top) && Usable(d.directDep, top) && Usable(d.revDep, top)
      && (forall r :: r in TypeSlots(k, s) ==> Askable(r, top))
    }

    lemma PlainIsUsable(s: nat)
      requires Shape() && s < |syms| && k.Sym(s).ty.Logic() && k.Sym(s).choice.None?
      ensures PlainUsable(s, RankOf(rk, SymTri(s)))
    {
      hide ExprSlots, ExprItems, WellFormed, Ranked;
      var d := k.Sym(s);
      var es := DefaultExprs(d.defaults) + [d.weakRevDep, d.directDep, d.revDep];
      UsableIn(SymTri(s), es);
      forall i | 0 <= i < |d.defaults| ensures d.defaults[i].value in es && d.defaults[i].cond in es {
        assert es[i] == d.defaults[i].cond && es[|d.defaults| + i] == d.defaults[i].value;
      }
      assert es[|es| - 3] == d.weakRevDep && es[|es| - 2] == d.directDep && es[|es| - 1] == d.revDep;
      forall r | r in TypeSlots(k, s) ensures Askable(r, RankOf(rk, SymTri(s))) { AskableIn(SymTri(s), r); }
    }

    /** The part of tri_value that looks at defaults and implies. */
    method NoUserTriValue(s: nat, ghost top: nat) returns (val: Tri, write: bool)
      requires Valid() && s < |syms| && PlainUsable(s, top)
      modifies this`live, this`vis, syms, choices
      ensures Kept()
      ensures (val, write) == NoUserTri(k, s, Values(k, input, rk)).v && NoUserTri(k, s, Values(k, input, rk)).rd <= live
      decreases top, 5
    {
      hide Step, WellFormed, Closure, Values, Eval, InputOk, Ranked, Dependents, SymCoherent, ChCoherent,
        SymMirrored, ChMirrored;
      var d := k.syms[s];
      val, write := 0, false;
      var first := FirstActive(DefaultConds(d.defaults), top);
      if first.Some? {
        var x := ExprValue(d.defaults[first.value.0].value, top);
        val := Min(x, first.value.1);
        if val != 0 { write := true; }
      }
      var weak := ExprValue(d.weakRevDep, top);
      if weak != 0 {
        var dep := ExprValue(d.directDep, top);
        if dep != 0 { val, write := Max(weak, val), true; }
      }
    }

    method PromotedTriValue(s: nat, val: Tri, ghost top: nat) returns (t: Tri)
      requires Valid() && s < |syms| && PlainUsable(s, top)
      modifies this`live, this`vis, syms, choices
      ensures Kept()
      ensures t == PromotedTri(k, s, val, Values(k, input, rk)).v && PromotedTri(k, s, val, Values(k, input, rk)).rd <= live
      decreases top, 4
    {
      hide Step, WellFormed, Closure, Values, Eval, InputOk, Ranked, Dependents, SymCoherent, ChCoherent,
        SymMirrored, ChMirrored;
      t := val;
      if val == 1 {
        var ty := SymTypeValue(s, top);
        if ty.Bool? {
          t := 2;
        } else {
          var weak := ExprValue(k.syms[s].weakRevDep, top);
          if weak == 2 { t := 2; }
        }
      }
    }

    method PlainTriValue(s: nat, vis: Tri, ghost top: nat) returns (val: Tri, write: bool)
      requires Valid() && s < |syms| && PlainUsable(s, top)
      modifies this`live, this`vis, syms, choices
      ensures Kept()
      ensures (val, write) == PlainTriOut(k, input.Val(s), s, vis, Values(k, input, rk)).v
      ensures PlainTriOut(k, input.Val(s), s, vis, Values(k, input, rk)).rd <= live
      decreases top, 6
    {
      hide Step, WellFormed, Closure, Values, Eval, InputOk, Ranked, Dependents, SymCoherent, ChCoherent,
        ChMirrored, NoUserTri, PromotedTri, ExprOut;
      assert SymMirrored(s);
      write := vis != 0;
      if vis != 0 && syms[s].userValue.TriVal? {
        val := Min(syms[s].userValue.t, vis);
      } else {
        var write0;
        val, write0 := NoUserTriValue(s, top);
        write := write || write0;
      }
      var rev := ExprValue(k.syms[s].revDep, top);
      if rev != 0 { val, write := Max(rev, val), true; }
      val := PromotedTriValue(s, val, top);
    }

    method MemberTriValue(s: nat, vis: Tri, ghost top: nat) returns (val: Tri, write: bool)
      requires Valid() && s < |syms| && k.syms[s].choice.Some?
      requires Askable(ChSel(k.syms[s].choice.value), top)
      modifies this`live, this`vis, syms, choices
      ensures Kept()
      ensures (val, write) == MemberTriOut(k, input.Val(s), s, k.syms[s].choice.value, vis, Values(k, input, rk)).v
      ensures MemberTriOut(k, input.Val(s), s, k.syms[s].choice.value, vis, Values(k, input, rk)).rd <= live
      decreases top, 6
    {
      hide Step, WellFormed, Closure, Values, Eval, InputOk, Ranked, Dependents, SymCoherent, ChCoherent, ChMirrored;
      assert SymMirrored(s);
      val, write := 0, vis != 0;
      if vis == 2 {
        var sel := ChSelection(k.syms[s].choice.value);
        GetValue(k, input, rk, ChSel(k.syms[s].choice.value));
        if sel == Some(s) { val := 2; }
      } else if vis != 0 && syms[s].userValue.TriVal? && syms[s].userValue.t != 0 {
        val := 1;
      }
    }

    method SymTriWorker(s: nat, ghost top: nat) returns (val: Tri, write: bool)
      requires Valid() && s < |syms| && top == RankOf(rk, SymTri(s)) && k.syms[s].ty.Logic()
      modifies this`live, this`vis, syms, choices
      ensures Kept()
      ensures (val, write) == SymTriOut(k, input.Val(s), s, Values(k, input, rk)).v
      ensures SymTriOut(k, input.Val(s), s, Values(k, input, rk)).rd <= live && SymItem(s) in vis
      decreases top, 7
    {
      hide Step, WellFormed, Closure, Values, Eval, InputOk, Ranked, Dependents, SymCoherent, ChCoherent,
        SymMirrored, ChMirrored, PlainTriOut, MemberTriOut, PlainUsable;
      AskableIn(SymTri(s), SymVis(s));
      var v := SymVisibility(s);
      GetValue(k, input, rk, SymVis(s));
      if k.syms[s].choice.None? {
        PlainIsUsable(s);
        val, write := PlainTriValue(s, v, top);
      } else {
        AskableIn(SymTri(s), ChSel(k.syms[s].choice.value));
        val, write := MemberTriValue(s, v, top);
      }
    }

    /** Symbol.tri_value */
    method SymTriValue(s: nat) returns (t: Tri)
      requires Valid() && s < |syms|
      modifies this`live, this`vis, syms, choices
      ensures Kept()
      ensures t == Eval(k, input, rk, SymTri(s)).AsTri() && SymTri(s) in live && syms[s].cachedTri == Some(t)
      decreases RankOf(rk, SymTri(s)), 8
    {
      hide Step, WellFormed, Closure, Values, Eval, InputOk, Ranked, Dependents;
      assert SymCoherent(s) && SymMirrored(s);
      if syms[s].cachedTri.Some? { return syms[s].cachedTri.value; }
      var write := false;
      t := 0;
      if k.syms[s].ty.Logic() {
        t, write := SymTriWorker(s, RankOf(rk, SymTri(s)));
      }
      StepOf(SymTri(s));
      RememberSymTri(s, t, write);
    }

    // String values

    ghost predicate DefaultsUsable(s: nat, top: nat) {
      var d := k.Sym(s);
      && AllUsable(DefaultConds(d.defaults), top)
      && (forall i :: 0 <= i < |d.defaults| ==> AtomUsable(DefaultAtom(d.defaults[i].value), top))
    }

    ghost predicate RangesUsable(s: nat, top: nat) {
      var d := k.Sym(s);
      && AllUsable(RangeConds(d.ranges), top)
      && (forall i :: 0 <= i < |d.ranges| ==> AtomUsable(d.ranges[i].low, top) && AtomUsable(d.ranges[i].high, top))
    }

    lemma AtomIsUsable(slot: Slot, a: Atom)
      requires Shape() && slot.Owner() in AllItems(k) && AtomSlots(a) <= StaticReads(k, slot)
      ensures AtomUsable(a, RankOf(rk, slot))
    {
      if a.Sym? {
        AskableIn(slot, SymTri(a.id));
        AskableIn(slot, SymStr(a.id));
      }
    }

    lemma DefaultsAreUsable(s: nat)
      requires Shape() && s < |syms| && !k.Sym(s).ty.Logic() && !k.Sym(s).ty.Unknown?
      ensures DefaultsUsable(s, RankOf(rk, SymStr(s)))
    {
      hide WellFormed, Ranked, AllItems, ExprItems;
      var d := k.Sym(s);
      var es := DefaultConds(d.defaults);
      var all := DefaultExprs(d.defaults) + RangeConds(d.ranges);
      ConcatSlots(DefaultExprs(d.defaults), RangeConds(d.ranges));
      ConcatSlots(es, seq(|d.defaults|, i requires 0 <= i < |d.defaults| => d.defaults[i].value));
      assert SymItem(s) in AllItems(k) by { OwnItem(s); }
      UsableIn(SymStr(s), es);
      forall i | 0 <= i < |d.defaults|
        ensures AtomUsable(DefaultAtom(d.defaults[i].value), RankOf(rk, SymStr(s)))
      {
        assert all[|d.defaults| + i] == d.defaults[i].value;
        assert ExprSlots(d.defaults[i].value) <= ExprsSlots(all);
        AtomIsUsable(SymStr(s), DefaultAtom(d.defaults[i].value));
      }
    }

    lemma OwnItem(s: nat)
      requires Shape() && s < |syms|
      ensures SymItem(s) in AllItems(k)
    {
    }

    lemma RangesAreUsable(s: nat)
      requires Shape() && s < |syms| && !k.Sym(s).ty.Logic() && !k.Sym(s).ty.Unknown?
      ensures RangesUsable(s, RankOf(rk, SymStr(s)))
    {
      hide WellFormed, Ranked, AllItems, ExprItems;
      var d := k.Sym(s);
      var es := RangeConds(d.ranges);
      ConcatSlots(DefaultExprs(d.defaults), es);
      assert SymItem(s) in AllItems(k) by { OwnItem(s); }
      forall e | e in es ensures e in ItemExprs(k, SymItem(s)) {
        assert e in RangeExprs(d.ranges);
      }
      UsableIn(SymStr(s), es);
      forall i | 0 <= i < |d.ranges|
        ensures AtomUsable(d.ranges[i].low, RankOf(rk, SymStr(s)))
        ensures AtomUsable(d.ranges[i].high, RankOf(rk, SymStr(s)))
      {
        assert forall r :: r in AtomSlots(d.ranges[i].low) + AtomSlots(d.ranges[i].high) ==> r in RangeSlots(d.ranges);
        AtomIsUsable(SymStr(s), d.ranges[i].low);
        AtomIsUsable(SymStr(s), d.ranges[i].high);
      }
    }

    method DefaultStrValue(s: nat, ghost top: nat) returns (r: Option<string>)
      requires Valid() && s < |syms| && DefaultsUsable(s, top)
      modifies this`live, this`vis, syms, choices
      ensures Kept()
      ensures r == DefaultStr(k, s, Values(k, input, rk)).v && DefaultStr(k, s, Values(k, input, rk)).rd <= live
      decreases top, 5
    {
      hide Step, WellFormed, Closure, Values, Eval, InputOk, Ranked, Dependents, SymCoherent, ChCoherent,
        SymMirrored, ChMirrored;
      var d := k.syms[s];
      r := None;
      var first := FirstActive(DefaultConds(d.defaults), top);
      if first.Some? {
        var x := AtomStrValue(DefaultAtom(d.defaults[first.value.0].value), top);
        r := Some(x);
      }
    }

    method ActiveRangeValue(s: nat, ghost top: nat) returns (r: Option<(int, int)>)
      requires Valid() && s < |syms| && RangesUsable(s, top)
      modifies this`live, this`vis, syms, choices
      ensures Kept()
      ensures r == ActiveRange(k, s, Values(k, input, rk)).v && ActiveRange(k, s, Values(k, input, rk)).rd <= live
      decreases top, 5
    {
      hide Step, WellFormed, Closure, Values, Eval, InputOk, Ranked, Dependents, SymCoherent, ChCoherent,
        SymMirrored, ChMirrored;
      var d := k.syms[s];
      r := None;
      var first := FirstActive(RangeConds(d.ranges), top);
      if first.Some? {
        var lo := AtomStrValue(d.ranges[first.value.0].low, top);
        var hi := AtomStrValue(d.ranges[first.value.0].high, top);
        r := Some((NumOrZero(lo, d.ty.Base()), NumOrZero(hi, d.ty.Base())));
      }
    }

    /** str_value of an int or hex symbol. */
    method NumStrValue(s: nat, vis: Tri, ghost top: nat) returns (val: string, write: bool)
      requires Valid() && s < |syms| && DefaultsUsable(s, top) && RangesUsable(s, top)
      requires k.syms[s].ty.Int? || k.syms[s].ty.Hex?
      modifies this`live, this`vis, syms, choices
      ensures Kept()
      ensures (val, write) == NumStrOut(k, input.Val(s), s, vis, Values(k, input, rk)).v
      ensures NumStrOut(k, input.Val(s), s, vis, Values(k, input, rk)).rd <= live
      decreases top, 6
    {
      hide Step, WellFormed, Closure, Values, Eval, InputOk, Ranked, Dependents, SymCoherent, ChCoherent,
        ChMirrored, ActiveRange, DefaultStr, NumOrZero, IntText, DefaultsUsable, RangesUsable;
      assert SymMirrored(s);
      var base := k.syms[s].ty.Base();
      var user := syms[s].userValue;
      write := vis != 0;
      var range := ActiveRangeValue(s, top);
      if vis != 0 && user.StrVal? && user.text != "" {
        var userVal := NumOrZero(user.text, base);
        if range.None? || range.value.0 <= userVal <= range.value.1 {
          return user.text, write;
        }
      }
      val := "";
      var def := DefaultStrValue(s, top);
      if def.Some? { val, write := def.value, true; }
      if range.Some? {
        var n := NumOrZero(val, base);
        if n < range.value.0 {
          val := IntText(range.value.0, base);
        } else if n > range.value.1 {
          val := IntText(range.value.1, base);
        }
      }
    }

    /** str_value of a string symbol. */
    method TextStrValue(s: nat, vis: Tri, ghost top: nat) returns (val: string, write: bool)
      requires Valid() && s < |syms| && DefaultsUsable(s, top)
      modifies this`live, this`vis, syms, choices
      ensures Kept()
      ensures (val, write) == TextStrOut(k, input.Val(s), s, vis, Values(k, input, rk)).v
      ensures TextStrOut(k, input.Val(s), s, vis, Values(k, input, rk)).rd <= live
      decreases top, 6
    {
      hide Step, WellFormed, Closure, Values, Eval, InputOk, Ranked, Dependents, SymCoherent, ChCoherent,
        ChMirrored, DefaultStr, DefaultsUsable;
      assert SymMirrored(s);
      val, write := "", vis != 0;
      if vis != 0 && syms[s].userValue.StrVal? {
        val := syms[s].userValue.text;
      } else {
        var def := DefaultStrValue(s, top);
        if def.Some? { val, write := def.value, true; }
      }
    }

    method SymStrWorker(s: nat, ghost top: nat) returns (val: string, write: bool)
      requires Valid() && s < |syms| && top == RankOf(rk, SymStr(s))
      requires !k.syms[s].ty.Logic() && !k.syms[s].ty.Unknown?
      modifies this`live, this`vis, syms, choices
      ensures Kept()
      ensures (val, write) == SymStrOut(k, input.Val(s), s, Values(k, input, rk)).v
      ensures SymStrOut(k, input.Val(s), s, Values(k, input, rk)).rd <= live && SymItem(s) in vis
      decreases top, 7
    {
      hide Step, WellFormed, Closure, Values, Eval, InputOk, Ranked, Dependents, SymCoherent, ChCoherent,
        SymMirrored, ChMirrored, NumStrOut, TextStrOut, DefaultsUsable, RangesUsable;
      AskableIn(SymStr(s), SymVis(s));
      DefaultsAreUsable(s);
      RangesAreUsable(s);
      var v := SymVisibility(s);
      GetValue(k, input, rk, SymVis(s));
      if k.syms[s].ty.String? {
        val, write := TextStrValue(s, v, top);
      } else {
        val, write := NumStrValue(s, v, top);
      }
      if k.syms[s].hidden { write := false; }
    }

    /** Symbol.str_value */
    method SymStrValue(s: nat) returns (x: string)
      requires Valid() && s < |syms|
      modifies this`live, this`vis, syms, choices
      ensures Kept()
      ensures x == Eval(k, input, rk, SymStr(s)).AsStr() && SymStr(s) in live && syms[s].cachedStr == Some(x)
      decreases RankOf(rk, SymStr(s)), 8
    {
      hide Step, WellFormed, Closure, Values, Eval, InputOk, Ranked, Dependents;
      assert SymCoherent(s) && SymMirrored(s);
      if syms[s].cachedStr.Some? { return syms[s].cachedStr.value; }
      StepOf(SymStr(s));
      if k.syms[s].ty.Logic() {
        AskableIn(SymStr(s), SymTri(s));
        var t := SymTriValue(s);
        GetValue(k, input, rk, SymTri(s));
        x := TriToStr(t);
        TriHasVis(s);
        RememberSymStr(s, x, false);
      } else if k.syms[s].ty.Unknown? {
        x := k.syms[s].name;
        RememberSymStr(s, x, false);
      } else {
        var write;
        x, write := SymStrWorker(s, RankOf(rk, SymStr(s)));
        RememberSymStr(s, x, write);
      }
    }

    lemma TriHasVis(s: nat)
      requires Valid() && s < |syms| && k.Sym(s).ty.Logic() && SymTri(s) in live
      ensures SymItem(s) in vis
    {
      assert Live(SymTri(s), live);
    }

    // Assignable values and selections

    /** Symbol.assignable */
    method SymAssignable(s: nat) returns (r: seq<Tri>)
      requires Valid() && s < |syms|
      modifies this`live, this`vis, syms, choices
      ensures Kept()
      ensures r == Eval(k, input, rk, SymAsg(s)).AsAsg()
    {
      hide Step, WellFormed, Closure, Values, Eval, InputOk, Ranked, Dependents;
      assert SymCoherent(s) && SymMirrored(s);
      if syms[s].cachedAsg.Some? { return syms[s].cachedAsg.value; }
      r := [];
      if k.syms[s].ty.Logic() { r := SymAsgWorker(s, RankOf(rk, SymAsg(s))); }
      StepOf(SymAsg(s));
      RememberSymAsg(s, r);
    }

    method SymAsgWorker(s: nat, ghost top: nat) returns (r: seq<Tri>)
      requires Valid() && s < |syms| && top == RankOf(rk, SymAsg(s)) && k.syms[s].ty.Logic()
      modifies this`live, this`vis, syms, choices
      ensures Kept()
      ensures r == SymAsgOut(k, s, Values(k, input, rk)).v && SymAsgOut(k, s, Values(k, input, rk)).rd <= live && SymItem(s) in vis
    {
      hide Step, WellFormed, Closure, Values, Eval, InputOk, Ranked, Dependents, SymCoherent, ChCoherent,
        SymMirrored, ChMirrored, ExprOut, SymType;
      var d := k.syms[s];
      var es := [d.weakRevDep, d.revDep];
      UsableIn(SymAsg(s), es);
      assert Usable(es[0], top) && Usable(es[1], top);
      AskableIn(SymAsg(s), SymVis(s));
      forall r | r in TypeSlots(k, s) ensures Askable(r, top) { AskableIn(SymAsg(s), r); }
      var v := SymVisibility(s);
      GetValue(k, input, rk, SymVis(s));
      if v == 0 { return []; }
      var rev := ExprValue(d.revDep, top);
      if v == 2 {
        if d.choice.Some? { return [2]; }
        if rev == 2 { return [2]; }
        var ty := SymTypeValue(s, top);
        var noMiddle := ty.Bool?;
        if !noMiddle {
          var weak := ExprValue(d.weakRevDep, top);
          noMiddle := weak == 2;
        }
        if rev == 0 { return if noMiddle then [0, 2] else [0, 1, 2]; }
        return if noMiddle then [2] else [1, 2];
      }
      if rev == 0 {
        var weak := ExprValue(d.weakRevDep, top);
        return if weak != 2 then [0, 1] else [0, 2];
      }
      r := if rev == 2 then [2] else [1];
    }

    /** Choice.assignable */
    method ChAssignable(c: nat) returns (r: seq<Tri>)
      requires Valid() && c < |choices|
      modifies this`live, this`vis, syms, choices
      ensures Kept()
      ensures r == Eval(k, input, rk, ChAsg(c)).AsAsg()
    {
      hide Step, WellFormed, Closure, Values, Eval, InputOk, Ranked, Dependents;
      assert ChCoherent(c) && ChMirrored(c);
      if choices[c].cachedAsg.Some? { return choices[c].cachedAsg.value; }
      r := ChAsgWorker(c, RankOf(rk, ChAsg(c)));
      StepOf(ChAsg(c));
      RememberChAsg(c, r);
    }

    method ChAsgWorker(c: nat, ghost top: nat) returns (r: seq<Tri>)
      requires Valid() && c < |choices| && top == RankOf(rk, ChAsg(c))
      modifies this`live, this`vis, syms, choices
      ensures Kept()
      ensures r == ChAsgOut(k, c, Values(k, input, rk)).v && ChAsgOut(k, c, Values(k, input, rk)).rd <= live && ChItem(c) in vis
    {
      hide Step, WellFormed, Closure, Values, Eval, InputOk, Ranked, Dependents, SymCoherent, ChCoherent,
        SymMirrored, ChMirrored;
      var d := k.choices[c];
      AskableIn(ChAsg(c), ChVis(c));
      forall r | r in ChTypeSlots(k, c) ensures Askable(r, top) { AskableIn(ChAsg(c), r); }
      var v := ChVisibility(c);
      GetValue(k, input, rk, ChVis(c));
      if v == 0 { return []; }
      if v == 2 {
        var ty := ChTypeValue(c, top);
        if !d.optional { return if ty.Bool? then [2] else [1, 2]; }
        return if ty.Bool? then [0, 2] else [0, 1, 2];
      }
      r := if d.optional then [0, 1] else [1];
    }

    /** The first default that is active and visible. */
    method FirstActiveDefault(ds: seq<ChoiceDefault>, ghost top: nat) returns (r: Option<nat>)
      requires Valid() && AllUsable(ChDefaultConds(ds), top)
      requires forall i :: 0 <= i < |ds| && ds[i].atom.Sym? ==> Askable(SymVis(ds[i].atom.id), top)
      modifies this`live, this`vis, syms, choices
      ensures Kept()
      ensures r == FirstDefault(k, ds, 0, Values(k, input, rk)).v && FirstDefault(k, ds, 0, Values(k, input, rk)).rd <= live
      decreases top, 5
    {
      hide Step, WellFormed, Closure, Values, Eval, InputOk, Ranked, Dependents, SymCoherent, ChCoherent,
        SymMirrored, ChMirrored, ExprOut, Usable;
      ghost var done: set<Slot> := {};
      for i := 0 to |ds|
        invariant Kept() && done <= live
        invariant FirstDefault(k, ds, 0, Values(k, input, rk)).v == FirstDefault(k, ds, i, Values(k, input, rk)).v
        invariant FirstDefault(k, ds, 0, Values(k, input, rk)).rd == done + FirstDefault(k, ds, i, Values(k, input, rk)).rd
      {
        assert ChDefaultConds(ds)[i] == ds[i].cond;
        var cond := ExprValue(ds[i].cond, top);
        done := done + ExprOut(k, ds[i].cond, Values(k, input, rk)).rd;
        if cond != 0 && ds[i].atom.Sym? {
          var s := ds[i].atom.id;
          var v := SymVisibility(s);
          GetValue(k, input, rk, SymVis(s));
          if v != 0 { return Some(s); }
          done := done + {SymVis(s)};
        }
      }
      r := None;
    }

    method FirstVisibleSymbol(ss: seq<nat>, ghost top: nat) returns (r: Option<nat>)
      requires Valid() && forall i :: 0 <= i < |ss| ==> Askable(SymVis(ss[i]), top)
      modifies this`live, this`vis, syms, choices
      ensures Kept()
      ensures r == FirstVisible(ss, 0, Values(k, input, rk)).v && FirstVisible(ss, 0, Values(k, input, rk)).rd <= live
      decreases top, 5
    {
      hide Step, WellFormed, Closure, Values, Eval, InputOk, Ranked, Dependents, SymCoherent, ChCoherent,
        SymMirrored, ChMirrored;
      ghost var done: set<Slot> := {};
      for i := 0 to |ss|
        invariant Kept() && done <= live
        invariant FirstVisible(ss, 0, Values(k, input, rk)).v == FirstVisible(ss, i, Values(k, input, rk)).v
        invariant FirstVisible(ss, 0, Values(k, input, rk)).rd == done + FirstVisible(ss, i, Values(k, input, rk)).rd
      {
        var v := SymVisibility(ss[i]);
        GetValue(k, input, rk, SymVis(ss[i]));
        if v != 0 { return Some(ss[i]); }
        done := done + {SymVis(ss[i])};
      }
      r := None;
    }

    /** _selection_from_defaults() */
    method SelectionFromDefaults(c: nat, ghost top: nat) returns (r: Option<nat>)
      requires Valid() && c < |choices| && top == RankOf(rk, ChSel(c))
      modifies this`live, this`vis, syms, choices
      ensures Kept()
      ensures r == DefaultSelection(k, c, Values(k, input, rk)).v && DefaultSelection(k, c, Values(k, input, rk)).rd <= live
      decreases top, 6
    {
      hide Step, WellFormed, Closure, Values, Eval, InputOk, Ranked, Dependents, SymCoherent, ChCoherent,
        SymMirrored, ChMirrored, FirstDefault, FirstVisible;
      var d := k.choices[c];
      UsableIn(ChSel(c), ChDefaultConds(d.defaults));
      forall s | s in Selectable(k, c) ensures Askable(SymVis(s), top) { AskableIn(ChSel(c), SymVis(s)); }
      assert forall i :: 0 <= i < |d.defaults| && d.defaults[i].atom.Sym? ==> d.defaults[i].atom.id in Selectable(k, c);
      r := FirstActiveDefault(d.defaults, top);
      if r.None? { r := FirstVisibleSymbol(d.syms, top); }
    }

    method ChSelWorker(c: nat, ghost top: nat) returns (r: Option<nat>)
      requires Valid() && c < |choices| && top == RankOf(rk, ChSel(c))
      modifies this`live, this`vis, syms, choices
      ensures Kept()
      ensures r == ChSelOut(k, input.Sel(c), c, Values(k, input, rk)).v
      ensures ChSelOut(k, input.Sel(c), c, Values(k, input, rk)).rd <= live
      ensures ChItem(c) in vis
      decreases top, 7
    {
      hide Step, WellFormed, Closure, Values, Eval, Storable, Ranked, Dependents, SymCoherent, ChCoherent,
        SymMirrored, DefaultSelection;
      AskableIn(ChSel(c), ChMode(c));
      var mode := ChModeValue(c);
      GetValue(k, input, rk, ChMode(c));
      if mode != 2 { return None; }
      assert ChMirrored(c);
      var user := choices[c].userSelection;
      if user.Some? {
        assert user == input.Sel(c);
        assert user.value in Selectable(k, c);
        AskableIn(ChSel(c), SymVis(user.value));
        var v := SymVisibility(user.value);
        GetValue(k, input, rk, SymVis(user.value));
        if v != 0 { return user; }
      }
      r := SelectionFromDefaults(c, top);
    }

    /** Choice.selection */
    method ChSelection(c: nat) returns (r: Option<nat>)
      requires Valid() && c < |choices|
      modifies this`live, this`vis, syms, choices
      ensures Kept()
      ensures r == Eval(k, input, rk, ChSel(c)).AsSel() && ChSel(c) in live
      decreases RankOf(rk, ChSel(c)), 8
    {
      hide Step, WellFormed, Closure, Values, Eval, InputOk, Ranked, Dependents;
      assert ChCoherent(c) && ChMirrored(c);
      if choices[c].cachedSel.Some? { return choices[c].cachedSel.value; }
      r := ChSelWorker(c, RankOf(rk, ChSel(c)));
      StepOf(ChSel(c));
      RememberChSel(c, r);
    }

    // Invalidation

    ghost function SymCacheOf(s: nat): SymCache
      reads syms
    {
      if s < |syms| then SymCache(syms[s].cachedVis, syms[s].cachedTri, syms[s].cachedStr, syms[s].cachedAsg)
      else NO_SYM_CACHE
    }

    ghost function ChCacheOf(c: nat): ChCache
      reads choices
    {
      if c < |choices| then ChCache(choices[c].cachedVis, choices[c].cachedAsg, choices[c].cachedSel)
      else NO_CH_CACHE
    }

    /** The caches of the items in 'gone' are cleared and the others are untouched. */
    twostate predicate OnlyCleared(gone: set<Item>)
      reads syms, choices
    {
      && (forall s :: 0 <= s < |syms| ==> syms[s].writeToConf == old(syms[s].writeToConf))
      && (forall s: nat {:trigger SymCacheOf(s)} ::
            SymCacheOf(s) == if SymItem(s) in gone then NO_SYM_CACHE else old(SymCacheOf(s)))
      && (forall c: nat {:trigger ChCacheOf(c)} ::
            ChCacheOf(c) == if ChItem(c) in gone then NO_CH_CACHE else old(ChCacheOf(c)))
    }

    /** Symbol._invalidate() */
    method InvalidateSym(s: nat)
      requires Shape() && Mirrored() && s < |syms|
      modifies this`vis, syms
      ensures Mirrored() && vis == old(vis) - {SymItem(s)} && OnlyCleared({SymItem(s)})
    {
      hide WellFormed, Ranked, Dependents;
      assert SymMirrored(s);
      syms[s].cachedVis, syms[s].cachedTri, syms[s].cachedStr, syms[s].cachedAsg := None, None, None, None;
      vis := vis - {SymItem(s)};
      forall i | 0 <= i < |syms| ensures SymMirrored(i) { assert old(SymMirrored(i)); }
      forall i | 0 <= i < |choices| ensures ChMirrored(i) { assert old(ChMirrored(i)); }
    }

    /** Choice._invalidate() */
    method InvalidateCh(c: nat)
      requires Shape() && Mirrored() && c < |choices|
      modifies this`vis, choices
      ensures Mirrored() && vis == old(vis) - {ChItem(c)} && OnlyCleared({ChItem(c)})
    {
      hide WellFormed, Ranked, Dependents;
      assert ChMirrored(c);
      choices[c].cachedVis, choices[c].cachedAsg, choices[c].cachedSel := None, None, None;
      vis := vis - {ChItem(c)};
      forall i | 0 <= i < |syms| ensures SymMirrored(i) { assert old(SymMirrored(i)); }
      forall i | 0 <= i < |choices| ensures ChMirrored(i) { assert old(ChMirrored(i)); }
    }

    method Invalidate(it: Item)
      requires Shape() && Mirrored() && it in AllItems(k)
      modifies this`vis, syms, choices
      ensures Mirrored() && vis == old(vis) - {it} && OnlyCleared({it})
    {
      hide WellFormed, Ranked, Dependents, SymMirrored, ChMirrored, SymCacheOf, ChCacheOf;
      match it
      case SymItem(s) => InvalidateSym(s);
      case ChItem(c) => InvalidateCh(c);
    }

    /** The two loops of Kconfig._invalidate_all(). */
    method InvalidateSyms()
      requires Shape() && Mirrored()
      modifies this`vis, syms
      ensures var gone := set i | 0 <= i < |syms| :: SymItem(i);
              Mirrored() && vis == old(vis) - gone && OnlyCleared(gone)
    {
      hide WellFormed, Ranked, Dependents, SymMirrored, ChMirrored, SymCacheOf, ChCacheOf;
      ghost var gone: set<Item> := {};
      for s := 0 to |syms|
        invariant Mirrored() && OnlyCleared(gone)
        invariant vis == old(vis) - gone && gone == set i | 0 <= i < s :: SymItem(i)
      {
        InvalidateSym(s);
        gone := gone + {SymItem(s)};
      }
    }

    method InvalidateChoices()
      requires Shape() && Mirrored()
      modifies this`vis, choices
      ensures var gone := set i | 0 <= i < |choices| :: ChItem(i);
              Mirrored() && vis == old(vis) - gone && OnlyCleared(gone)
    {
      hide WellFormed, Ranked, Dependents, SymMirrored, ChMirrored, SymCacheOf, ChCacheOf;
      ghost var gone: set<Item> := {};
      for c := 0 to |choices|
        invariant Mirrored() && OnlyCleared(gone)
        invariant vis == old(vis) - gone && gone == set i | 0 <= i < c :: ChItem(i)
      {
        InvalidateCh(c);
        gone := gone + {ChItem(c)};
      }
    }

    /** Kconfig._invalidate_all() */
    method InvalidateAll()
      requires Shape() && Mirrored()
      modifies this`vis, syms, choices
      ensures Mirrored() && vis == {} && OnlyCleared(AllItems(k))
    {
      hide WellFormed, Ranked, Dependents, SymMirrored, ChMirrored, SymCacheOf, ChCacheOf;
      InvalidateSyms();
      InvalidateChoices();
      assert AllItems(k) == (set i | 0 <= i < |syms| :: SymItem(i)) + (set i | 0 <= i < |choices| :: ChItem(i));
    }

    /** What one call of _rec_invalidate() has done by the time it returns. */
    twostate predicate Swept(gone: set<Item>)
      reads this`dependents, this`input, this`vis, syms, choices
    {
      && Shape() && Mirrored() && gone <= AllItems(k)
      && Invalidated(k, gone, old(vis), vis) && OnlyCleared(gone)
    }

    lemma DependentsAre(it: Item)
      requires Shape() && it in AllItems(k)
      ensures it in dependents && dependents[it] <= AllItems(k)
      ensures forall y :: y in AllItems(k) ==> (y in dependents[it] <==> DependsOn(k, y, it))
    {
    }

    predicate HasVis(it: Item)
      requires match it case SymItem(s) => s < |syms| case ChItem(c) => c < |choices|
      reads syms, choices
    {
      match it
      case SymItem(s) => syms[s].cachedVis.Some?
      case ChItem(c) => choices[c].cachedVis.Some?
    }

    lemma VisIsMirrored(it: Item)
      requires Shape() && Mirrored() && it in AllItems(k)
      ensures match it case SymItem(s) => s < |syms| case ChItem(c) => c < |choices|
      ensures HasVis(it) <==> it in vis
    {
      match it
      case SymItem(s) => assert SymMirrored(s);
      case ChItem(c) => assert ChMirrored(c);
    }

    /** _rec_invalidate(), for symbols and choices. It stops at items without a cached
        visibility, and terminates on cyclic dependencies because the set of items with
        a cached visibility shrinks at every recursive call. */
    method RecInvalidate(it: Item) returns (ghost gone: set<Item>)
      requires Shape() && Mirrored() && it in AllItems(k)
      modifies this`vis, syms, choices
      ensures Swept(gone) && it in gone
      decreases vis, it !in vis
    {
      hide WellFormed, Ranked, Dependents, SymMirrored, ChMirrored, SymCacheOf, ChCacheOf, DependsOn, AllItems, HasVis;
      if it.SymItem? && k.modules == Some(it.s) {
        InvalidateAll();
        return AllItems(k);
      }
      Invalidate(it);
      gone := {it};
      DependentsAre(it);
      var todo := dependents[it];
      while todo != {}
        invariant Shape() && Mirrored() && it in gone && gone <= AllItems(k) && todo <= dependents[it]
        invariant vis == old(vis) - gone && OnlyCleared(gone)
        invariant forall y :: y in dependents[it] - todo ==> y !in vis
        invariant forall x, y :: x in gone && x != it && y in AllItems(k) && DependsOn(k, y, x) ==> y !in vis
        invariant forall x :: x in gone && x != it && IsModules(k, x) ==> AllItems(k) <= gone
        decreases todo
      {
        var x :| x in todo;
        todo := todo - {x};
        VisIsMirrored(x);
        if HasVis(x) {
          ghost var more := RecInvalidate(x);
          gone := gone + more;
        }
      }
    }

    // Assignments

    /** After invalidation, what is left in the caches is coherent with the new input,
        provided that the input of every item that still has a cached visibility is the
        same, or belongs to a symbol without prompts. */
    twostate lemma StillValid(gone: set<Item>)
      requires old(Valid()) && InputOk(k, input)
      requires Swept(gone) && live == Surviving(old(live), gone)
      requires forall it :: it in vis ==> SameInput(old(input), input, it) || Invisible(k, it)
      ensures Valid()
    {
      hide Step, WellFormed, Eval, Values, Ranked, Dependents, InputOk, Invalidated, Closure;
      var u := old(input);
      assert SelsOk(k, u) && SelsOk(k, input) by { SelsAreOk(u); SelsAreOk(input); }
      ClosureSurvives(k, u, input, rk, old(live), old(vis), vis, gone);
      forall s | 0 <= s < |syms| ensures SymCoherent(s) {
        assert old(SymCoherent(s));
        assert SymCacheOf(s) == if SymItem(s) in gone then NO_SYM_CACHE else old(SymCacheOf(s));
      }
      forall c | 0 <= c < |choices| ensures ChCoherent(c) {
        assert old(ChCoherent(c));
        assert ChCacheOf(c) == if ChItem(c) in gone then NO_CH_CACHE else old(ChCacheOf(c));
      }
    }

    lemma SelsAreOk(u: Input)
      requires InputOk(k, u)
      ensures SelsOk(k, u)
    {
    }

    /** A node with a prompt makes user values matter. */
    method RecInvalidateIfHasPrompt(s: nat) returns (ghost gone: set<Item>)
      requires Shape() && Mirrored() && s < |syms|
      modifies this`vis, syms, choices
      ensures Swept(gone) && (if k.syms[s].prompts == [] then gone == {} else SymItem(s) in gone)
    {
      hide WellFormed, Ranked, Dependents, SymMirrored, ChMirrored, DependsOn;
      gone := {};
      if k.syms[s].prompts != [] {
        gone := RecInvalidate(SymItem(s));
      }
    }

    method StoreUserValue(s: nat, v: UserVal, flag: bool)
      requires Shape() && Mirrored() && s < |syms|
      modifies this`input, syms
      ensures Mirrored() && OnlyCleared({})
      ensures input == old(input).(vals := old(input).vals[s := v], symSet := old(input).symSet[s := flag])
    {
      hide WellFormed, Ranked, Dependents;
      assert SymMirrored(s);
      syms[s].userValue, syms[s].wasSet := v, flag;
      input := input.(vals := input.vals[s := v], symSet := input.symSet[s := flag]);
      forall i | 0 <= i < |syms| ensures SymMirrored(i) { assert old(SymMirrored(i)); }
      forall i | 0 <= i < |choices| ensures ChMirrored(i) { assert old(ChMirrored(i)); }
    }

    method StoreChoice(c: nat, mode: Option<Tri>, sel: Option<nat>, flag: bool)
      requires Shape() && Mirrored() && c < |choices|
      modifies this`input, choices
      ensures Mirrored() && OnlyCleared({})
      ensures input == old(input).(modes := old(input).modes[c := mode], sels := old(input).sels[c := sel],
                                   chSet := old(input).chSet[c := flag])
    {
      hide WellFormed, Ranked, Dependents;
      assert ChMirrored(c);
      choices[c].userValue, choices[c].userSelection, choices[c].wasSet := mode, sel, flag;
      input := input.(modes := input.modes[c := mode], sels := input.sels[c := sel], chSet := input.chSet[c := flag]);
      forall i | 0 <= i < |syms| ensures SymMirrored(i) { assert old(SymMirrored(i)); }
      forall i | 0 <= i < |choices| ensures ChMirrored(i) { assert old(ChMirrored(i)); }
    }

    /** The input of an item with a cached visibility cannot have changed, if it changed
        only for symbol 's' and for its choice, and they have been invalidated. */
    lemma OnlyOwnInput(u: Input, s: nat, gone: set<Item>, vis0: set<Item>)
      requires Shape() && s < |syms| && InputOk(k, u) && InputOk(k, input)
      requires Invalidated(k, gone, vis0, vis)
      requires forall x: nat :: x != s ==> u.Val(x) == input.Val(x)
      requires forall c: nat :: Some(c) != k.syms[s].choice ==> SameInput(u, input, ChItem(c))
      requires || (k.syms[s].choice.Some? && ChItem(k.syms[s].choice.value) in gone)
               || (u.modes == input.modes && u.sels == input.sels && (k.syms[s].prompts == [] || SymItem(s) in gone))
      ensures forall it :: it in vis ==> SameInput(u, input, it) || Invisible(k, it)
    {
      hide Ranked, Dependents, Mentions, ItemExprs;
      assert k.Sym(s) == k.syms[s];
      if k.syms[s].choice.Some? && ChItem(k.syms[s].choice.value) in gone {
        assert DependsOn(k, SymItem(s), ChItem(k.syms[s].choice.value)) || NeverVisible(k, s);
        assert SymItem(s) in AllItems(k);
      }
    }

    lemma ChoiceOf(s: nat)
      requires Shape() && s < |syms| && k.syms[s].choice.Some?
      ensures var c := k.syms[s].choice.value;
              c < |choices| && s in k.Choice(c).syms && ChItem(c) in AllItems(k)
    {
      assert k.Sym(s) == k.syms[s];
    }

    /** SetSym(), as updates of single components. */
    lemma SetSymStored(u: Input, s: nat, value: Value)
      requires s < |u.vals| == |u.symSet| && |u.modes| == |u.sels| == |u.chSet|
      requires Accepted(k.Sym(s).ty, value).Some?
      requires k.Sym(s).choice.Some? ==> k.Sym(s).choice.value < |u.modes|
      ensures var v := Accepted(k.Sym(s).ty, value).value;
              var u1 := u.(vals := u.vals[s := v], symSet := u.symSet[s := true]);
              SetSym(k, u, s, value) ==
              if k.Sym(s).choice.Some? && v == TriVal(2) then
                var c := k.Sym(s).choice.value;
                u1.(modes := u1.modes[c := u1.modes[c]], sels := u1.sels[c := Some(s)], chSet := u1.chSet[c := true])
              else u1
    {
      if k.Sym(s).choice.Some? {
        var c := k.Sym(s).choice.value;
        assert u.modes[c := u.modes[c]] == u.modes;
      }
    }

    /** A new user value for a symbol, as far as it does not touch the choice. */
    method ChangeUserValue(s: nat, v: UserVal, flag: bool)
      requires Valid() && s < |syms|
      requires InputOk(k, input.(vals := input.vals[s := v], symSet := input.symSet[s := flag]))
      modifies this`input, this`vis, this`live, syms, choices
      ensures Valid() && dependents == old(dependents)
      ensures input == old(input).(vals := old(input).vals[s := v], symSet := old(input).symSet[s := flag])
    {
      hide WellFormed, Ranked, Dependents, SymMirrored, ChMirrored, SymCoherent, ChCoherent, SymCacheOf, ChCacheOf,
        Closure, DependsOn, AllItems, Invalidated;
      StoreUserValue(s, v, flag);
      ghost var gone := RecInvalidateIfHasPrompt(s);
      live := Surviving(live, gone);
      OnlyOwnInput(old(input), s, gone, old(vis));
      StillValid(gone);
    }

    lemma ModeIsMirrored(c: nat)
      requires Mirrored() && c < |choices|
      ensures c < |input.modes| && choices[c].userValue == input.modes[c]
    {
      assert ChMirrored(c);
    }

    method StoreSelection(s: nat, c: nat)
      requires Shape() && Mirrored() && s < |syms| && c < |choices|
      modifies this`input, syms, choices
      ensures Mirrored() && OnlyCleared({})
      ensures input == old(input).(
                vals := old(input).vals[s := TriVal(2)], symSet := old(input).symSet[s := true],
                sels := old(input).sels[c := Some(s)], chSet := old(input).chSet[c := true])
    {
      hide WellFormed, Ranked, Dependents, SymMirrored, ChMirrored, SymCacheOf, ChCacheOf;
      ModeIsMirrored(c);
      StoreUserValue(s, TriVal(2), true);
      StoreChoice(c, choices[c].userValue, Some(s), true);
      assert input.modes == old(input).modes;
    }

    /** Symbol 's' is set to y and becomes the user selection of its choice. */
    method SelectSymbol(s: nat, c: nat)
      requires Valid() && s < |syms| && k.syms[s].choice == Some(c) && c < |choices|
      requires InputOk(k, input.(vals := input.vals[s := TriVal(2)], symSet := input.symSet[s := true],
                                 sels := input.sels[c := Some(s)], chSet := input.chSet[c := true]))
      modifies this`input, this`vis, this`live, syms, choices
      ensures Valid() && dependents == old(dependents)
      ensures input == old(input).(
                vals := old(input).vals[s := TriVal(2)], symSet := old(input).symSet[s := true],
                sels := old(input).sels[c := Some(s)], chSet := old(input).chSet[c := true])
    {
      hide WellFormed, Ranked, Dependents, SymMirrored, ChMirrored, SymCoherent, ChCoherent, SymCacheOf, ChCacheOf,
        Closure, DependsOn, AllItems, Invalidated, Accepted;
      ChoiceOf(s);
      StoreSelection(s, c);
      ghost var gone := RecInvalidate(ChItem(c));
      live := Surviving(live, gone);
      OnlyOwnInput(old(input), s, gone, old(vis));
      StillValid(gone);
    }

    /** Symbol.set_value() */
    method SetValue(s: nat, value: Value) returns (ok: bool)
      requires Valid() && s < |syms|
      modifies this`input, this`vis, this`live, syms, choices
      ensures Valid() && dependents == old(dependents)
      ensures input == SetSym(k, old(input), s, value)
      ensures ok == Accepted(k.syms[s].ty, value).Some?
    {
      hide WellFormed, Ranked, Dependents, ChMirrored, SymCoherent, ChCoherent, SymCacheOf, ChCacheOf,
        Closure, DependsOn, AllItems, Invalidated, Accepted, Same;
      assert SymMirrored(s);
      var d := k.syms[s];
      assert k.Sym(s) == d;
      if d.choice.Some? { ChoiceOf(s); }
      SetSymOk(k, input, s, value);
      if Same(d.ty, value, syms[s].userValue) && d.choice.None? {
        assert Storable(k.Sym(s).ty, input.Val(s));
        SameIsAccepted(d.ty, value, syms[s].userValue);
        SetSymStored(input, s, value);
        StoreUserValue(s, syms[s].userValue, true);
        assert Swept({}) && live == Surviving(live, {}) by { NothingGone(old(vis)); }
        StillValid({});
        return true;
      }
      var accepted := Accepted(d.ty, value);
      if accepted.None? { return false; }
      SetSymStored(input, s, value);
      if d.choice.Some? && accepted.value == TriVal(2) {
        assert input.modes[d.choice.value := input.modes[d.choice.value]] == input.modes;
        SelectSymbol(s, d.choice.value);
      } else {
        ChangeUserValue(s, accepted.value, true);
      }
      ok := true;
    }

    lemma NothingGone(vis0: set<Item>)
      requires vis == vis0
      ensures Invalidated(k, {}, vis0, vis) && live == Surviving(live, {})
    {
    }

    /** Symbol.unset_value() */
    method UnsetValue(s: nat)
      requires Valid() && s < |syms|
      modifies this`input, this`vis, this`live, syms, choices
      ensures Valid() && dependents == old(dependents)
      ensures input == UnsetSym(old(input), s)
    {
      hide WellFormed, Ranked, Dependents, ChMirrored, SymCoherent, ChCoherent, SymCacheOf, ChCacheOf,
        Closure, DependsOn, AllItems, Invalidated, InputOk;
      assert SymMirrored(s);
      UnsetOk(k, input, s);
      assert input.symSet[s := syms[s].wasSet] == input.symSet;
      if syms[s].userValue.NoVal? {
        assert input.vals[s := NoVal] == input.vals;
      } else {
        ChangeUserValue(s, NoVal, syms[s].wasSet);
      }
    }

    /** A new mode or user selection for a choice. */
    method ChangeChoice(c: nat, mode: Option<Tri>, sel: Option<nat>, flag: bool)
      requires Valid() && c < |choices|
      requires InputOk(k, input.(modes := input.modes[c := mode], sels := input.sels[c := sel],
                                 chSet := input.chSet[c := flag]))
      modifies this`input, this`vis, this`live, syms, choices
      ensures Valid() && dependents == old(dependents)
      ensures input == old(input).(modes := old(input).modes[c := mode], sels := old(input).sels[c := sel],
                                   chSet := old(input).chSet[c := flag])
    {
      hide WellFormed, Ranked, Dependents, SymMirrored, ChMirrored, SymCoherent, ChCoherent, SymCacheOf, ChCacheOf,
        Closure, DependsOn, Accepted;
      StoreChoice(c, mode, sel, flag);
      ghost var gone := RecInvalidate(ChItem(c));
      live := Surviving(live, gone);
      StillValid(gone);
    }

    /** Choice.set_value() */
    method SetMode(c: nat, value: Value) returns (ok: bool)
      requires Valid() && c < |choices|
      modifies this`input, this`vis, this`live, syms, choices
      ensures Valid() && dependents == old(dependents)
      ensures input == Inputs.SetMode(k, old(input), c, value)
      ensures ok == AcceptedMode(k.choices[c].ty, value).Some?
    {
      hide WellFormed, Ranked, Dependents, SymMirrored, SymCoherent, ChCoherent, SymCacheOf, ChCacheOf,
        Closure, DependsOn, AllItems, Invalidated, InputOk, AcceptedMode;
      assert ChMirrored(c);
      assert k.Choice(c) == k.choices[c];
      SetModeOk(k, input, c, value);
      var mode := AcceptedMode(k.choices[c].ty, value);
      assert input.sels[c := choices[c].userSelection] == input.sels;
      assert input.modes[c := choices[c].userValue] == input.modes;
      if mode.Some? && mode == choices[c].userValue {
        StoreChoice(c, choices[c].userValue, choices[c].userSelection, true);
        assert Swept({}) && live == Surviving(live, {}) by { NothingGone(old(vis)); }
        StillValid({});
        return true;
      }
      if mode.None? { return false; }
      ChangeChoice(c, mode, choices[c].userSelection, true);
      ok := true;
    }

    /** Choice.unset_value() */
    method UnsetMode(c: nat)
      requires Valid() && c < |choices|
      modifies this`input, this`vis, this`live, syms, choices
      ensures Valid() && dependents == old(dependents)
      ensures input == Inputs.UnsetMode(old(input), c)
    {
      hide WellFormed, Ranked, Dependents, SymMirrored, SymCoherent, ChCoherent, SymCacheOf, ChCacheOf,
        Closure, DependsOn, AllItems, Invalidated, InputOk;
      assert ChMirrored(c);
      UnsetOk(k, input, c);
      assert input.chSet[c := choices[c].wasSet] == input.chSet;
      if choices[c].userValue.Some? || choices[c].userSelection.Some? {
        ChangeChoice(c, None, None, choices[c].wasSet);
      } else {
        assert input.modes[c := None] == input.modes && input.sels[c := None] == input.sels;
      }
    }

    // Runs

    method Read(slot: Slot) returns (r: Reading)
      requires Valid() && OpOk(k, ReadOp(slot))
      modifies this`live, this`vis, syms, choices
      ensures Kept() && r == Observed(Eval(k, input, rk, slot))
    {
      hide WellFormed, Ranked, Dependents, SymMirrored, ChMirrored, SymCoherent, ChCoherent, Closure, InputOk, Eval;
      ValShape(slot);
      match slot
      case SymVis(s) => var t := SymVisibility(s); r := TriR(t);
      case SymTri(s) => var t := SymTriValue(s); r := TriR(t);
      case SymStr(s) => var x := SymStrValue(s); r := StrR(x);
      case SymAsg(s) => var a := SymAssignable(s); r := AsgR(a);
      case ChVis(c) => var t := ChVisibility(c); r := TriR(t);
      case ChMode(c) => var t := ChModeValue(c); r := TriR(t);
      case ChSel(c) => var sel := ChSelection(c); r := SelR(sel);
      case ChAsg(c) => var a := ChAssignable(c); r := AsgR(a);
    }

    lemma ValShape(slot: Slot)
      ensures var v := Eval(k, input, rk, slot);
              Observed(v) ==
              match slot
              case SymVis(_) => TriR(v.AsTri()) case SymTri(_) => TriR(v.AsTri())
              case SymStr(_) => StrR(v.AsStr()) case SymAsg(_) => AsgR(v.AsAsg())
              case ChVis(_) => TriR(v.AsTri()) case ChMode(_) => TriR(v.AsTri())
              case ChSel(_) => SelR(v.AsSel()) case ChAsg(_) => AsgR(v.AsAsg())
    {
    }

    /** Over every run of assignments and reads, the memoised engine answers as if every
        property were evaluated from scratch under the input at that moment. */
    method Run(ops: seq<Op>) returns (readings: seq<Reading>)
      requires Valid() && forall op :: op in ops ==> OpOk(k, op)
      modifies this`input, this`vis, this`live, syms, choices
      ensures Valid() && input == ApplyAll(k, old(input), ops)
      ensures readings == Readings(k, old(input), rk, ops)
    {
      hide WellFormed, Ranked, Dependents, SymMirrored, ChMirrored, SymCoherent, ChCoherent, Closure, InputOk, Eval, Apply;
      readings := [];
      for i := 0 to |ops|
        invariant Valid()
        invariant ApplyAll(k, input, ops[i..]) == ApplyAll(k, old(input), ops)
        invariant readings + Readings(k, input, rk, ops[i..]) == Readings(k, old(input), rk, ops)
      {
        assert ops[i] in ops && ops[i..][0] == ops[i] && ops[i..][1..] == ops[i + 1..];
        ghost var before := input;
        var out := Perform(ops[i]);
        readings := readings + out;
      }
    }

    method Perform(op: Op) returns (out: seq<Reading>)
      requires Valid() && OpOk(k, op)
      modifies this`input, this`vis, this`live, syms, choices
      ensures Valid() && input == Apply(k, old(input), op)
      ensures out == if op.ReadOp? then [Observed(Eval(k, old(input), rk, op.slot))] else []
    {
      hide WellFormed, Ranked, Dependents, SymMirrored, ChMirrored, SymCoherent, ChCoherent, Closure, InputOk, Eval;
      out := [];
      match op
      case SetSymOp(s, value) => var _ := SetValue(s, value);
      case UnsetSymOp(s) => UnsetValue(s);
      case SetModeOp(c, value) => var _ := SetMode(c, value);
      case UnsetModeOp(c) => UnsetMode(c);
      case ReadOp(slot) => var r := Read(slot); out := [r];
    }

    // Loading

    method ClearSymFlag(s: nat)
      requires Valid() && s < |syms|
      modifies this`input, this`vis, this`live, syms, choices
      ensures Valid() && dependents == old(dependents)
      ensures input == old(input).(symSet := old(input).symSet[s := false])
    {
      hide WellFormed, Ranked, Dependents, ChMirrored, SymCoherent, ChCoherent, SymCacheOf, ChCacheOf, Closure,
        Accepted, AllItems, Storable;
      assert SymMirrored(s);
      StoreUserValue(s, syms[s].userValue, false);
      assert input.vals == old(input).vals;
      assert forall x: nat :: input.Val(x) == old(input).Val(x) && input.Sel(x) == old(input).Sel(x);
      assert Swept({}) && live == Surviving(live, {}) by { NothingGone(old(vis)); }
      StillValid({});
    }

    method ClearChFlag(c: nat)
      requires Valid() && c < |choices|
      modifies this`input, this`vis, this`live, syms, choices
      ensures Valid() && dependents == old(dependents)
      ensures input == old(input).(chSet := old(input).chSet[c := false])
    {
      hide WellFormed, Ranked, Dependents, SymMirrored, SymCoherent, ChCoherent, SymCacheOf, ChCacheOf, Closure,
        Accepted, AllItems, Storable;
      assert ChMirrored(c);
      StoreChoice(c, choices[c].userValue, choices[c].userSelection, false);
      assert input.modes == old(input).modes && input.sels == old(input).sels;
      assert forall x: nat :: input.Val(x) == old(input).Val(x) && input.Sel(x) == old(input).Sel(x);
      assert Swept({}) && live == Surviving(live, {}) by { NothingGone(old(vis)); }
      StillValid({});
    }

    method ClearWasSet()
      requires Valid()
      modifies this`input, this`vis, this`live, syms, choices
      ensures Valid() && input == ClearFlags(old(input))
    {
      hide WellFormed, Ranked, Dependents, SymMirrored, ChMirrored, SymCoherent, ChCoherent, Closure, InputOk;
      ghost var u := input;
      assert ClearFirst(u, 0, 0) == u;
      for s := 0 to |syms|
        invariant Valid() && input == ClearFirst(u, s, 0)
      {
        ClearSymFlag(s);
        assert ClearFirst(u, s, 0).symSet[s := false] == ClearFirst(u, s + 1, 0).symSet;
      }
      for c := 0 to |choices|
        invariant Valid() && input == ClearFirst(u, |syms|, c)
      {
        ClearChFlag(c);
        assert ClearFirst(u, |syms|, c).chSet[c := false] == ClearFirst(u, |syms|, c + 1).chSet;
      }
    }

    /** The effect of one line of a .config file. */
    method LoadLine(raw: string)
      requires Valid()
      modifies this`input, this`vis, this`live, syms, choices
      ensures Valid()
      ensures var a := ParseLine(k, raw);
              input == if a.Some? then LoadOne(k, old(input), a.value) else old(input)
    {
      hide WellFormed, Ranked, Dependents, SymMirrored, ChMirrored, SymCoherent, ChCoherent, Closure, InputOk,
        Accepted, AcceptedMode, SetMatch, UnsetMatch, ReadLine, AllItems, ConfStringMatch, Unescape;
      var line := ReadLine(raw);
      var found;
      var text;
      match line {
        case Assign(name, val) =>
          found := FindSym(k.syms, name);
          if found.None? { return; }
          var d := k.syms[found.value];
          text := val;
          if d.ty.Logic() {
            if !LogicText(d.ty, val) { return; }
            text := val[..1];
            if d.choice.Some? && text != "n" {
              ChoiceOf(found.value);
              var _ := SetMode(d.choice.value, Text(text));
            }
          } else if d.ty.String? {
            var body := ConfStringMatch(val);
            if body.None? { return; }
            text := Unescape(body.value);
          }
        case Unset(name) =>
          found := FindSym(k.syms, name);
          if found.None? || !k.syms[found.value].ty.Logic() { return; }
          text := "n";
        case Other => return;
      }
      assert k.Sym(found.value) == k.syms[found.value];
      var _ := SetValue(found.value, Text(text));
    }

    method UnsetUnset()
      requires Valid()
      modifies this`input, this`vis, this`live, syms, choices
      ensures Valid() && input == UnsetRest(old(input))
    {
      hide WellFormed, Ranked, Dependents, SymCoherent, ChCoherent, Closure, InputOk;
      ghost var u := input;
      assert UnsetFirst(u, 0, 0) == u;
      for s := 0 to |syms|
        invariant Valid() && input == UnsetFirst(u, s, 0)
      {
        assert SymMirrored(s);
        if !syms[s].wasSet {
          UnsetValue(s);
          assert UnsetFirst(u, s, 0).vals[s := NoVal] == UnsetFirst(u, s + 1, 0).vals;
        } else {
          assert UnsetFirst(u, s, 0).vals == UnsetFirst(u, s + 1, 0).vals;
        }
      }
      for c := 0 to |choices|
        invariant Valid() && input == UnsetFirst(u, |syms|, c)
      {
        assert ChMirrored(c);
        if !choices[c].wasSet {
          UnsetMode(c);
          assert UnsetFirst(u, |syms|, c).modes[c := None] == UnsetFirst(u, |syms|, c + 1).modes;
          assert UnsetFirst(u, |syms|, c).sels[c := None] == UnsetFirst(u, |syms|, c + 1).sels;
        } else {
          assert UnsetFirst(u, |syms|, c).modes == UnsetFirst(u, |syms|, c + 1).modes;
          assert UnsetFirst(u, |syms|, c).sels == UnsetFirst(u, |syms|, c + 1).sels;
        }
      }
    }

    /** _load_config() */
    method LoadConfig(lines: seq<string>, replace: bool)
      requires Valid()
      modifies this`input, this`vis, this`live, syms, choices
      ensures Valid() && input == Load(k, old(input), lines, replace)
    {
      hide WellFormed, Ranked, Dependents, SymMirrored, ChMirrored, SymCoherent, ChCoherent, Closure, InputOk,
        ParseLine, LoadOne;
      if replace { ClearWasSet(); }
      ghost var u := input;
      for i := 0 to |lines|
        invariant Valid() && input == LoadAll(k, u, ParseLines(k, lines[..i]))
      {
        assert lines[..i + 1][..i] == lines[..i];
        LoadLine(lines[i]);
        var a := ParseLine(k, lines[i]);
        ghost var before := ParseLines(k, lines[..i]);
        assert a.Some? ==> (before + [a.value])[..|before|] == before;
        assert before + [] == before;
      }
      assert lines[..|lines|] == lines;
      if replace { UnsetUnset(); }
    }

    // Saving

    /** Symbol.config_string */
    method ConfigLine(s: nat) returns (line: Option<string>)
      requires Valid() && s < |syms|
      modifies this`live, this`vis, syms, choices
      ensures Kept()
      ensures line == if Written(k, input, rk, s)
                      then Some(ConfigString(k.Sym(s), StrOf(k, input, rk, s))) else None
    {
      hide Step, WellFormed, Closure, Values, Eval, InputOk, Ranked, Dependents, ChCoherent, ChMirrored;
      var val := SymStrValue(s);
      assert k.Sym(s) == k.syms[s] && StrOf(k, input, rk, s) == val;
      assert SymCoherent(s);
      if k.syms[s].ty.Unknown? { assert !Written(k, input, rk, s) by { WrittenUnknown(s); } }
      if !syms[s].writeToConf { return None; }
      line := Some(ConfigString(k.syms[s], val));
    }

    lemma WrittenUnknown(s: nat)
      requires Shape() && InputOk(k, input) && k.Sym(s).ty.Unknown?
      ensures !Written(k, input, rk, s)
    {
      UnknownNotWritten(k, input, rk, s);
    }

    /** Symbol._str_default() */
    method StrDefaultValue(s: nat) returns (x: string)
      requires Valid() && s < |syms|
      modifies this`live, this`vis, syms, choices
      ensures Kept()
      ensures x == StrDefault(k, s, Values(k, input, rk))
    {
      hide Step, WellFormed, Closure, Values, Eval, InputOk, Ranked, Dependents, SymCoherent, ChCoherent,
        SymMirrored, ChMirrored, ExprOut, FirstTrue, SymType, DefaultsUsable;
      var d := k.syms[s];
      assert k.Sym(s) == d;
      if d.ty.Logic() {
        var val: Tri := 0;
        if d.choice.None? {
          ghost var top := RankOf(rk, SymTri(s));
          PlainIsUsable(s);
          var first := FirstActive(DefaultConds(d.defaults), top);
          if first.Some? {
            var v := ExprValue(d.defaults[first.value.0].value, top);
            val := Min(v, first.value.1);
          }
          var rev := ExprValue(d.revDep, top);
          var weak := ExprValue(d.weakRevDep, top);
          val := Max(rev, Max(weak, val));
          if val == 1 {
            var ty := SymTypeValue(s, top);
            if ty.Bool? { val := 2; }
          }
        }
        return TriToStr(val);
      }
      x := "";
      if !d.ty.Unknown? {
        DefaultsAreUsable(s);
        var def := DefaultStrValue(s, RankOf(rk, SymStr(s)));
        if def.Some? { x := def.value; }
      }
    }

    /** Is the symbol skipped because its value cannot be changed? */
    method Unchangeable(s: nat) returns (skip: bool)
      requires Valid() && s < |syms| && k.syms[s].choice.None?
      modifies this`live, this`vis, syms, choices
      ensures Kept()
      ensures skip == (VisOf(k, input, rk, s) <= ExprOf(k, input, rk, k.Sym(s).revDep))
    {
      hide Step, WellFormed, Closure, Values, Eval, InputOk, Ranked, Dependents, SymCoherent, ChCoherent,
        SymMirrored, ChMirrored;
      var v := SymVisibility(s);
      var es := [k.syms[s].weakRevDep, k.syms[s].revDep];
      OwnItem(s);
      UsableIn(SymAsg(s), es);
      assert Usable(es[1], RankOf(rk, SymAsg(s)));
      var rev := ExprValue(k.syms[s].revDep, RankOf(rk, SymAsg(s)));
      skip := v <= rev;
    }

    /** The line of a symbol in a minimal configuration, if it gets one. */
    method MinLine(s: nat) returns (line: Option<string>)
      requires Valid() && s < |syms|
      modifies this`live, this`vis, syms, choices
      ensures Kept()
      ensures line == if MinKept(k, input, rk, s)
                      then Some(ConfigString(k.Sym(s), StrOf(k, input, rk, s))) else None
    {
      hide Step, WellFormed, Closure, Values, Eval, InputOk, Ranked, Dependents, SymCoherent, ChCoherent,
        SymMirrored, ChMirrored, Written, DefaultSelection, ConfigString, StrDefault, ExprOf;
      var d := k.syms[s];
      assert k.Sym(s) == d;
      if d.choice.None? {
        var skip := Unchangeable(s);
        if skip { return None; }
      }
      var val := SymStrValue(s);
      assert StrOf(k, input, rk, s) == val;
      var def := StrDefaultValue(s);
      if val == def { return None; }
      if d.choice.Some? {
        var c := d.choice.value;
        ChoiceOf(s);
        if !k.choices[c].optional {
          var sel := SelectionFromDefaults(c, RankOf(rk, ChSel(c)));
          if sel == Some(s) && d.ty.Bool? {
            var t := SymTriValue(s);
            assert TriOf(k, input, rk, s) == t;
            if t == 2 { return None; }
          }
        }
      }
      line := ConfigLine(s);
    }

    /** _min_config_contents() */
    method MinConfigContents() returns (lines: seq<string>)
      requires Valid()
      modifies this`live, this`vis, syms, choices
      ensures Kept()
      ensures lines == ConfigLines(k, input, rk, MinKeep(k, input, rk), |k.syms|)
    {
      hide Step, WellFormed, Closure, Values, Eval, InputOk, Ranked, Dependents, SymCoherent, ChCoherent,
        SymMirrored, ChMirrored, MinKept, ConfigString, StrOf;
      lines := [];
      for s := 0 to |syms|
        invariant Kept() && lines == ConfigLines(k, input, rk, MinKeep(k, input, rk), s)
      {
        var line := MinLine(s);
        if line.Some? { lines := lines + [line.value]; }
      }
    }

    // Construction

    static method NewSymStates(n: nat) returns (ss: seq<SymState>)
      ensures |ss| == n && forall i :: 0 <= i < n ==> fresh(ss[i]) && BlankSym(ss[i])
      ensures forall i, j :: 0 <= i < j < n ==> ss[i] != ss[j]
    {
      ss := [];
      for s := 0 to n
        invariant |ss| == s && forall i :: 0 <= i < s ==> fresh(ss[i]) && BlankSym(ss[i])
        invariant forall i, j :: 0 <= i < j < s ==> ss[i] != ss[j]
      {
        var o := new SymState();
        ss := ss + [o];
      }
    }

    static method NewChStates(n: nat) returns (cs: seq<ChState>)
      ensures |cs| == n && forall i :: 0 <= i < n ==> fresh(cs[i]) && BlankCh(cs[i])
      ensures forall i, j :: 0 <= i < j < n ==> cs[i] != cs[j]
    {
      cs := [];
      for c := 0 to n
        invariant |cs| == c && forall i :: 0 <= i < c ==> fresh(cs[i]) && BlankCh(cs[i])
        invariant forall i, j :: 0 <= i < j < c ==> cs[i] != cs[j]
      {
        var o := new ChState();
        cs := cs + [o];
      }
    }

    static method NewDependents(k: Config) returns (dependents: map<Item, set<Item>>)
      requires Closed(k)
      ensures dependents.Keys == AllItems(k) && forall j :: j in dependents ==> dependents[j] == Dependents(k, j)
    {
      hide *;
      var graph := new DependencyGraph(k);
      graph.BuildDep(k);
      graph.AddChoiceDeps(k);
      dependents := graph.dependents;
    }

    constructor (k: Config, ghost rk: Rank)
      requires WellFormed(k) && Ranked(k, rk)
      ensures Valid() && this.k == k && this.rk == rk && input == NoInput(k)
      ensures forall s :: 0 <= s < |syms| ==> fresh(syms[s])
      ensures forall c :: 0 <= c < |choices| ==> fresh(choices[c])
    {
      var deps := NewDependents(k);
      var ss := NewSymStates(|k.syms|);
      var cs := NewChStates(|k.choices|);
      this.k, this.rk, this.syms, this.choices, this.dependents := k, rk, ss, cs, deps;
      input, vis, live := NoInput(k), {}, {};
      new;
      hide Eval, Step, WellFormed, Ranked, Dependents, Values;
    }
  }
}
