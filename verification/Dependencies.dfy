/** Which items an item's properties mention, and why following those edges is enough
    to find everything that a change can reach. */
module Dependencies {
  import opened Wrappers
  import opened Tristate
  import opened Expressions
  import opened Evaluation
  import opened Semantics

  function AllItems(k: Config): set<Item> {
    (set s | 0 <= s < |k.syms| :: SymItem(s)) + (set c | 0 <= c < |k.choices| :: ChItem(c))
  }

  function RangeExprs(rs: seq<Range>): seq<Expr> {
    RangeConds(rs) + seq(|rs|, i requires 0 <= i < |rs| => Leaf(rs[i].low))
                   + seq(|rs|, i requires 0 <= i < |rs| => Leaf(rs[i].high))
  }

  /** The expressions that _build_dep() makes an item depend on. */
  function ItemExprs(k: Config, it: Item): seq<Expr> {
    match it
    case SymItem(s) =>
      var d := k.Sym(s);
      d.prompts + DefaultExprs(d.defaults) + [d.revDep, d.weakRevDep]
      + RangeExprs(d.ranges) + [d.directDep]
    case ChItem(c) =>
      k.Choice(c).prompts + ChDefaultConds(k.Choice(c).defaults)
  }

  /** Is 'j' mentioned in one of the expressions? */
  predicate Mentions(es: seq<Expr>, j: Item) {
    exists e :: e in es && j in ExprItems(e)
  }

  /** The items that depend directly on 'j', including what _add_choice_deps() adds. */
  function Dependents(k: Config, j: Item): set<Item> {
    set i | i in AllItems(k) && DependsOn(k, i, j)
  }

  predicate DependsOn(k: Config, i: Item, j: Item) {
    Mentions(ItemExprs(k, i), j)
    || (i.ChItem? && j.SymItem? && j.s in k.Choice(i.c).syms)
  }

  /** No prompt of the symbol can hold, whatever the values are. */
  predicate NeverVisible(k: Config, s: nat) {
    forall e :: e in k.Sym(s).prompts ==> e == N
  }

  /** What the code relies on but does not check: a choice symbol mentions its choice
      in one of its expressions, unless _make_and() has simplified the conditions of all of
      its prompts to n, and choice defaults name symbols of the choice. */
  ghost predicate ChoicesOk(k: Config) {
    && (forall s: nat {:trigger k.Sym(s)} :: k.Sym(s).choice.Some? ==>
          && (Mentions(ItemExprs(k, SymItem(s)), ChItem(k.Sym(s).choice.value)) || NeverVisible(k, s))
          && s in k.Choice(k.Sym(s).choice.value).syms)
    && (forall c: nat, i {:trigger k.Choice(c).defaults[i]} ::
          0 <= i < |k.Choice(c).defaults| && k.Choice(c).defaults[i].atom.Sym? ==>
          k.Choice(c).defaults[i].atom.id in k.Choice(c).syms)
  }

  /** Every id refers to something. */
  ghost predicate Closed(k: Config) {
    && (forall i, j :: i in AllItems(k) && Mentions(ItemExprs(k, i), j) ==> j in AllItems(k))
    && (forall c: nat, s {:trigger s in k.Choice(c).syms} :: s in k.Choice(c).syms ==> s < |k.syms|)
    && (forall s: nat {:trigger k.Sym(s)} :: k.Sym(s).choice.Some? ==> k.Sym(s).choice.value < |k.choices|)
    && (k.modules.Some? ==> k.modules.value < |k.syms|)
  }

  ghost predicate WellFormed(k: Config) {
    Closed(k) && ChoicesOk(k)
  }

  predicate IsModules(k: Config, it: Item) {
    it.SymItem? && k.modules == Some(it.s)
  }

  /** The order in which the properties of one item are computed. */
  function Kind(slot: Slot): nat {
    match slot
    case SymVis(_) => 0 case SymTri(_) => 1 case SymStr(_) => 2 case SymAsg(_) => 2
    case ChVis(_) => 0 case ChMode(_) => 1 case ChSel(_) => 2 case ChAsg(_) => 2
  }

  predicate IsTristate(k: Config, it: Item) {
    match it
    case SymItem(s) => k.Sym(s).ty.Tristate?
    case ChItem(c) => k.Choice(c).ty.Tristate?
  }

  /** 'slot' is reached from the owner of 'r': by being a later property of it, by
      depending on it, or by having a type that depends on MODULES. */
  predicate Reached(k: Config, slot: Slot, r: Slot) {
    || (r.Owner() == slot.Owner() && Kind(r) < Kind(slot))
    || DependsOn(k, slot.Owner(), r.Owner())
    || (IsModules(k, r.Owner()) && r.SymTri? && IsTristate(k, slot.Owner()))
  }

  /** 'r' belongs to the choice of the symbol, which can never be visible: there may be no edge. */
  predicate Unseen(k: Config, slot: Slot, r: Slot) {
    && (slot.SymVis? || slot.SymTri? || slot.SymAsg?) && NeverVisible(k, slot.s)
    && r.Owner().ChItem? && k.Sym(slot.s).choice == Some(r.c)
  }

  lemma {:induction false} ExprSlotsOwners(e: Expr, r: Slot)
    requires r in ExprSlots(e)
    ensures r.Owner() in ExprItems(e)
  {
    match e {
      case Leaf(a) =>
      case Mode(c) =>
      case And(x, y) =>
        if r in ExprSlots(x) { ExprSlotsOwners(x, r); } else { ExprSlotsOwners(y, r); }
      case Or(x, y) =>
        if r in ExprSlots(x) { ExprSlotsOwners(x, r); } else { ExprSlotsOwners(y, r); }
      case Not(x) => ExprSlotsOwners(x, r);
      case Cmp(_, a, b) =>
    }
  }

  lemma ExprsSlotsOwners(es: seq<Expr>, all: seq<Expr>, r: Slot)
    requires r in ExprsSlots(es) && forall e :: e in es ==> e in all
    ensures Mentions(all, r.Owner())
  {
    var e :| e in es && r in ExprSlots(e);
    ExprSlotsOwners(e, r);
    assert e in all;
  }

  lemma RangeSlotsOwners(k: Config, s: nat, r: Slot)
    requires r in RangeSlots(k.Sym(s).ranges)
    ensures Mentions(ItemExprs(k, SymItem(s)), r.Owner())
  {
    var rs := k.Sym(s).ranges;
    var i :| 0 <= i < |rs| && r in AtomSlots(rs[i].low) + AtomSlots(rs[i].high);
    var es := RangeExprs(rs);
    assert es[|rs| + i] == Leaf(rs[i].low) && es[2 * |rs| + i] == Leaf(rs[i].high);
    var e := if r in AtomSlots(rs[i].low) then Leaf(rs[i].low) else Leaf(rs[i].high);
    assert e in ItemExprs(k, SymItem(s)) && r.Owner() in ExprItems(e);
  }

  /** Invalidation follows the right edges: everything that can be read for a property is
      an earlier property of the same item, belongs to an item it depends on, or is the
      value of MODULES. There are exceptions for choice symbols that are never visible. */
  lemma ReadsAreReached(k: Config, slot: Slot, r: Slot)
    requires ChoicesOk(k)
    requires r in StaticReads(k, slot)
    ensures Reached(k, slot, r) || Unseen(k, slot, r)
  {
    var all := ItemExprs(k, slot.Owner());
    match slot {
      case SymVis(s) =>
        if r in ExprsSlots(k.Sym(s).prompts) { ExprsSlotsOwners(k.Sym(s).prompts, all, r); }
      case SymTri(s) =>
        var es := DefaultExprs(k.Sym(s).defaults) + [k.Sym(s).weakRevDep, k.Sym(s).directDep, k.Sym(s).revDep];
        if r in ExprsSlots(es) { ExprsSlotsOwners(es, all, r); }
      case SymStr(s) =>
        var es := DefaultExprs(k.Sym(s).defaults) + RangeConds(k.Sym(s).ranges);
        if r in ExprsSlots(es) { ExprsSlotsOwners(es, all, r); }
        else if r in RangeSlots(k.Sym(s).ranges) { RangeSlotsOwners(k, s, r); }
      case SymAsg(s) =>
        var es := [k.Sym(s).weakRevDep, k.Sym(s).revDep];
        if r in ExprsSlots(es) { ExprsSlotsOwners(es, all, r); }
      case ChVis(c) =>
        if r in ExprsSlots(k.Choice(c).prompts) { ExprsSlotsOwners(k.Choice(c).prompts, all, r); }
      case ChMode(c) =>
      case ChSel(c) =>
        var es := ChDefaultConds(k.Choice(c).defaults);
        if r in ExprsSlots(es) { ExprsSlotsOwners(es, all, r); }
      case ChAsg(c) =>
    }
  }
}
