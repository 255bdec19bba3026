/** Why evaluation terminates once the loop check has passed: the order in which the check
    finishes symbols and choices gives a rank. */
module Termination {
  import opened Wrappers
  import opened Expressions
  import opened Evaluation
  import opened Semantics
  import opened Dependencies
  import opened LoopSearch
  import opened LoopCompleteness
  import opened LoopExactness

  /** MODULES and everything that it depends on, directly or not. The types of tristate
      symbols and choices depend on MODULES without an edge that the loop check could see, so
      it is assumed that no symbol in this set is tristate or has to do with a choice. */
  ghost predicate ModulesApart(k: Config, apart: set<nat>) {
    && (k.modules.Some? ==> k.modules.value in apart)
    && (forall s {:trigger k.Sym(s)} :: s in apart ==> !k.Sym(s).ty.Tristate? && k.Sym(s).choice.None?)
    && (forall s, j :: s in apart && Mentions(ItemExprs(k, SymItem(s)), j) ==> j.SymItem? && j.s in apart)
  }

  /** What is mentioned along with a choice: the check does not look at what depends on the
      mode of a choice, so anything but its symbols must also depend on one of them. Items of
      an implicit submenu below a choice symbol do. */
  ghost predicate NestedOk(k: Config) {
    forall i, c: nat {:trigger Mentions(ItemExprs(k, i), ChItem(c))} ::
      Mentions(ItemExprs(k, i), ChItem(c)) && !(i.SymItem? && k.Sym(i.s).choice == Some(c)) ==>
        exists s :: s in k.Choice(c).syms && Mentions(ItemExprs(k, i), SymItem(s))
  }

  /** The dependents that the loop check works on, in some order: no edges from choice
      symbols to their choice have been added yet. */
  ghost predicate Arranged(g: Graph) {
    && g.after.Keys == AllItems(g.k)
    && forall i, j :: j in g.after ==> (i in g.after[j] <==> i in AllItems(g.k) && Mentions(ItemExprs(g.k, i), j))
  }

  lemma ArrangedIsOk(g: Graph)
    requires Arranged(g) && Closed(g.k)
    ensures GraphOk(g)
  {
    hide ItemExprs, Mentions, Closed;
  }

  /** What the rank is given for. */
  ghost predicate Completed(g: Graph, order: seq<Item>) {
    && Arranged(g) && WellFormed(g.k) && Paired(g.k) && NestedOk(g.k)
    && NoWayBack(g) && Finished(g, order)
  }

  /** The later an item's place was finished, the lower. */
  ghost function Height(g: Graph, order: seq<Item>, x: Item): (h: nat)
    ensures h <= |order|
  {
    |order| - PlacePos(g, order, x)
  }

  /** The order in which the properties of a choice and of its symbols are computed. */
  function Stage(slot: Slot): nat {
    match slot
    case ChVis(_) => 0 case ChMode(_) => 1 case SymVis(_) => 2 case ChSel(_) => 3 case ChAsg(_) => 3
    case SymTri(_) => 4 case SymStr(_) => 5 case SymAsg(_) => 5
  }

  predicate IsApart(apart: set<nat>, x: Item) {
    x.SymItem? && x.s in apart
  }

  ghost function RankIn(g: Graph, order: seq<Item>, apart: set<nat>, slot: Slot): nat {
    6 * Height(g, order, slot.Owner()) + Stage(slot) + (if IsApart(apart, slot.Owner()) then 0 else 6 * |order| + 6)
  }

  ghost function LoopCheckRank(g: Graph, order: seq<Item>, apart: set<nat>): Rank {
    slot => RankIn(g, order, apart, slot)
  }

  lemma MentionsNeedsItem(k: Config, i: Item, j: Item)
    requires Mentions(ItemExprs(k, i), j) && Closed(k)
    ensures i in AllItems(k) && j in AllItems(k)
  {
  }

  /** What mentions a symbol has an earlier place. */
  lemma HigherDependent(g: Graph, order: seq<Item>, i: Item, t: nat)
    requires Completed(g, order) && Mentions(ItemExprs(g.k, i), SymItem(t))
    ensures Height(g, order, SymItem(t)) < Height(g, order, i)
  {
    hide Finished, NoWayBack, ItemExprs, Mentions, NestedOk, Paired;
    ArrangedIsOk(g);
    MentionsNeedsItem(g.k, i, SymItem(t));
    SymInOrder(g, order, SymItem(t));
    DependentIsEarlier(g, order, SymItem(t), i);
  }

  /** What mentions a choice has an earlier place, or is one of its symbols. */
  lemma HigherThanChoice(g: Graph, order: seq<Item>, i: Item, c: nat)
    requires Completed(g, order) && Mentions(ItemExprs(g.k, i), ChItem(c))
    ensures Height(g, order, ChItem(c)) < Height(g, order, i) || g.Member(c, i)
  {
    hide Finished, NoWayBack, ItemExprs, Mentions, Arranged, WellFormed;
    if !g.Member(c, i) {
      var s :| s in g.k.Choice(c).syms && Mentions(ItemExprs(g.k, i), SymItem(s));
      HigherDependent(g, order, i, s);
    }
  }

  lemma MemberHasSameHeight(g: Graph, order: seq<Item>, x: Item, c: nat)
    requires g.Member(c, x)
    ensures Height(g, order, x) == Height(g, order, ChItem(c))
  {
  }

  lemma {:induction false} ModeIsRead(e: Expr, r: Slot)
    requires r in ExprSlots(e) && r.Owner().ChItem?
    ensures r.ChMode?
  {
    match e {
      case Leaf(_) =>
      case Mode(_) =>
      case Cmp(_, _, _) =>
      case Not(x) => ModeIsRead(x, r);
      case And(a, b) => if r in ExprSlots(a) { ModeIsRead(a, r); } else { ModeIsRead(b, r); }
      case Or(a, b) => if r in ExprSlots(a) { ModeIsRead(a, r); } else { ModeIsRead(b, r); }
    }
  }

  lemma ModesAreRead(es: seq<Expr>, r: Slot)
    requires r in ExprsSlots(es) && r.Owner().ChItem?
    ensures r.ChMode?
  {
    var e :| e in es && r in ExprSlots(e);
    ModeIsRead(e, r);
  }

  /** Symbols read the mode of choices, and their value the selection of their own choice. */
  lemma SymbolReadsMode(k: Config, slot: Slot, r: Slot)
    requires r in StaticReads(k, slot) && slot.Owner().SymItem? && r.Owner().ChItem?
    ensures r.ChMode? || (r.ChSel? && slot.SymTri?)
  {
    match slot {
      case SymVis(s) => if r in ExprsSlots(k.Sym(s).prompts) { ModesAreRead(k.Sym(s).prompts, r); }
      case SymTri(s) =>
        var es := DefaultExprs(k.Sym(s).defaults) + [k.Sym(s).weakRevDep, k.Sym(s).directDep, k.Sym(s).revDep];
        if r in ExprsSlots(es) { ModesAreRead(es, r); }
      case SymStr(s) =>
        var es := DefaultExprs(k.Sym(s).defaults) + RangeConds(k.Sym(s).ranges);
        if r in ExprsSlots(es) { ModesAreRead(es, r); }
      case SymAsg(s) =>
        var es := [k.Sym(s).weakRevDep, k.Sym(s).revDep];
        if r in ExprsSlots(es) { ModesAreRead(es, r); }
    }
  }

  /** Apart from what it mentions, and MODULES, a choice reads the visibility of its symbols. */
  lemma ChoiceReadsVisibility(k: Config, slot: Slot, r: Slot)
    requires ChoicesOk(k) && r in StaticReads(k, slot) && slot.Owner().ChItem? && r.Owner().SymItem?
    ensures || Mentions(ItemExprs(k, slot.Owner()), r.Owner())
            || (IsModules(k, r.Owner()) && IsTristate(k, slot.Owner()))
            || (slot.ChSel? && r.SymVis? && r.s in k.Choice(slot.c).syms)
  {
    hide Mentions;
    var c := slot.Owner().c;
    var all := ItemExprs(k, ChItem(c));
    if r in ExprsSlots(k.Choice(c).prompts) {
      ExprsSlotsOwners(k.Choice(c).prompts, all, r);
    } else if r in ExprsSlots(ChDefaultConds(k.Choice(c).defaults)) {
      ExprsSlotsOwners(ChDefaultConds(k.Choice(c).defaults), all, r);
    }
  }

  /** What a slot reads of another item, unless that is an earlier place or MODULES. */
  lemma OtherReadsRankLower(g: Graph, order: seq<Item>, slot: Slot, r: Slot)
    requires Completed(g, order) && r in StaticReads(g.k, slot) && r.Owner() != slot.Owner()
    requires !(IsModules(g.k, r.Owner()) && IsTristate(g.k, slot.Owner()))
    ensures || Height(g, order, r.Owner()) < Height(g, order, slot.Owner())
            || (Height(g, order, r.Owner()) == Height(g, order, slot.Owner()) && Stage(r) < Stage(slot))
  {
    hide Mentions, ItemExprs, StaticReads, AllItems, Arranged, Finished, NoWayBack, NestedOk, Height, Closed;
    ReadsAreReached(g.k, slot, r);
    var x, y := slot.Owner(), r.Owner();
    match y {
      case ChItem(c) =>
        if g.Member(c, x) {
          MemberHasSameHeight(g, order, x, c);
          SymbolReadsMode(g.k, slot, r);
        } else {
          HigherThanChoice(g, order, x, c);
        }
      case SymItem(t) =>
        if Mentions(ItemExprs(g.k, x), y) {
          HigherDependent(g, order, x, t);
        } else {
          ChoiceReadsVisibility(g.k, slot, r);
          MemberHasSameHeight(g, order, y, x.c);
        }
    }
  }

  /** What MODULES depends on stays apart. */
  lemma ReadsStayApart(k: Config, apart: set<nat>, slot: Slot, r: Slot)
    requires ChoicesOk(k) && ModulesApart(k, apart) && r in StaticReads(k, slot)
    ensures IsApart(apart, slot.Owner()) ==> IsApart(apart, r.Owner()) && !IsTristate(k, slot.Owner())
    ensures IsModules(k, r.Owner()) ==> IsApart(apart, r.Owner())
  {
    hide StaticReads, ItemExprs, Mentions;
    ReadsAreReached(k, slot, r);
  }

  lemma ReadRanksLower(g: Graph, order: seq<Item>, apart: set<nat>, slot: Slot, r: Slot)
    requires Completed(g, order) && ModulesApart(g.k, apart) && r in StaticReads(g.k, slot)
    ensures RankIn(g, order, apart, r) < RankIn(g, order, apart, slot)
  {
    hide Mentions, ItemExprs, StaticReads, AllItems, Arranged, Finished, NoWayBack, NestedOk, ModulesApart, Height, Closed;
    ReadsStayApart(g.k, apart, slot, r);
    ReadsAreReached(g.k, slot, r);
    if r.Owner() == slot.Owner() && Kind(r) < Kind(slot) {
    } else if IsModules(g.k, r.Owner()) && IsTristate(g.k, slot.Owner()) {
    } else if r.Owner() == slot.Owner() {
      OwnMention(g, order, slot.Owner());
    } else {
      OtherReadsRankLower(g, order, slot, r);
    }
  }

  /** No item depends on itself, other than a choice on its symbols. */
  lemma OwnMention(g: Graph, order: seq<Item>, x: Item)
    requires Completed(g, order)
    ensures !Mentions(ItemExprs(g.k, x), x)
  {
    hide Mentions, ItemExprs, Arranged, Finished, NoWayBack, NestedOk, WellFormed;
    if Mentions(ItemExprs(g.k, x), x) {
      match x
      case SymItem(s) => HigherDependent(g, order, x, s);
      case ChItem(c) => HigherThanChoice(g, order, x, c);
    }
  }

  /** Completion of the loop check yields a rank: evaluation terminates. */
  lemma EvaluationTerminates(g: Graph, order: seq<Item>, apart: set<nat>)
    requires Completed(g, order) && ModulesApart(g.k, apart)
    ensures Ranked(g.k, LoopCheckRank(g, order, apart))
  {
    hide Completed, ModulesApart, StaticReads, RankIn;
    var rk := LoopCheckRank(g, order, apart);
    forall slot, r | r in StaticReads(g.k, slot) ensures RankOf(rk, r) < RankOf(rk, slot) {
      ReadRanksLower(g, order, apart, slot, r);
    }
  }
}
