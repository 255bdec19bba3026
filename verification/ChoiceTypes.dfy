/** Choice symbols and the types that choices and their symbols take over from each other. */
module ChoiceTypes {
  import opened Wrappers
  import opened Expressions
  import opened MenuTree

  /** What finalization fills in for a choice. */
  datatype ChoiceProps = ChoiceProps(ty: Ty, directDep: Expr, defaults: seq<Default>, syms: seq<nat>)

  /** The types of the symbols, the choices they are in, and the choices. */
  datatype Membership = Membership(types: seq<Ty>, owners: seq<Option<nat>>, choices: seq<ChoiceProps>)

  function TypeOf(types: seq<Ty>, s: nat): Ty {
    if s < |types| then types[s] else Unknown
  }

  function SetOwners(owners: seq<Option<nat>>, syms: seq<nat>, c: nat): (r: seq<Option<nat>>)
    ensures |r| == |owners|
  {
    if syms == [] then owners else
    var before, s := SetOwners(owners, syms[..|syms| - 1], c), syms[|syms| - 1];
    if s < |before| then before[s := Some(c)] else before
  }

  /** The first known type. */
  function FirstKnown(types: seq<Ty>, syms: seq<nat>): Ty {
    if syms == [] then Unknown
    else if !TypeOf(types, syms[0]).Unknown? then TypeOf(types, syms[0])
    else FirstKnown(types, syms[1..])
  }

  function FillTypes(types: seq<Ty>, syms: seq<nat>, ty: Ty): (r: seq<Ty>)
    ensures |r| == |types|
  {
    if syms == [] then types else
    var before, s := FillTypes(types, syms[..|syms| - 1], ty), syms[|syms| - 1];
    if s < |before| && before[s].Unknown? then before[s := ty] else before
  }

  /** The end of _finalize_node() for a choice, with _finalize_choice(). */
  function CloseChoice(m: Membership, e: ChoiceEntry): (r: Membership)
    ensures |r.types| == |m.types| && |r.owners| == |m.owners| && |r.choices| == |m.choices|
  {
    if e.c >= |m.choices| then m else
    var ch := m.choices[e.c];
    var syms := ch.syms + e.members;
    var ty := if ch.ty.Unknown? then FirstKnown(m.types, syms) else ch.ty;
    Membership(
      FillTypes(m.types, syms, ty),
      SetOwners(m.owners, e.members, e.c),
      m.choices[e.c := ChoiceProps(ty, MakeOr(ch.directDep, e.dep), ch.defaults + e.defaults, syms)])
  }

  function CloseAll(m: Membership, es: seq<ChoiceEntry>): (r: Membership)
    ensures |r.types| == |m.types| && |r.owners| == |m.owners| && |r.choices| == |m.choices|
  {
    if es == [] then m else CloseChoice(CloseAll(m, es[..|es| - 1]), es[|es| - 1])
  }

  lemma {:induction false} CloseAllConcat(m: Membership, a: seq<ChoiceEntry>, b: seq<ChoiceEntry>)
    ensures CloseAll(m, a + b) == CloseAll(CloseAll(m, a), b)
  {
    if b == [] {
      assert a + b == a;
    } else {
      assert (a + b)[..|a + b| - 1] == a + b[..|b| - 1];
      CloseAllConcat(m, a, b[..|b| - 1]);
    }
  }

  lemma {:induction false} FirstKnownFinds(types: seq<Ty>, syms: seq<nat>)
    ensures FirstKnown(types, syms).Unknown? <==> forall s :: s in syms ==> TypeOf(types, s).Unknown?
  {
    if syms == [] {
    } else {
      FirstKnownFinds(types, syms[1..]);
      assert forall s :: s in syms <==> s == syms[0] || s in syms[1..];
    }
  }

  lemma {:induction false} FillTypesFills(types: seq<Ty>, syms: seq<nat>, ty: Ty, s: nat)
    requires s < |types|
    ensures FillTypes(types, syms, ty)[s] == if s in syms && types[s].Unknown? then ty else types[s]
  {
    if syms == [] {
    } else {
      var n := |syms| - 1;
      FillTypesFills(types, syms[..n], ty, s);
      assert forall x :: x in syms <==> x in syms[..n] || x == syms[n];
    }
  }

  lemma {:induction false} SetOwnersSets(owners: seq<Option<nat>>, syms: seq<nat>, c: nat, s: nat)
    requires s < |owners|
    ensures SetOwners(owners, syms, c)[s] == if s in syms then Some(c) else owners[s]
  {
    if syms == [] {
    } else {
      var n := |syms| - 1;
      SetOwnersSets(owners, syms[..n], c, s);
      assert forall x :: x in syms <==> x in syms[..n] || x == syms[n];
    }
  }

  /** A finalized choice owns the symbols of its children. A known type is never lost; and if
      the type of the choice or of one of its symbols is known, then all of them have a known
      type afterwards, and otherwise none. */
  lemma ClosedChoiceHasTypes(m: Membership, e: ChoiceEntry, s: nat)
    requires e.c < |m.choices| && s < |m.types| == |m.owners|
    ensures var r := CloseChoice(m, e);
            var ch := r.choices[e.c];
            && (s in e.members ==> s in ch.syms && r.owners[s] == Some(e.c))
            && (s !in e.members ==> r.owners[s] == m.owners[s])
            && (!m.types[s].Unknown? || s !in ch.syms ==> r.types[s] == m.types[s])
            && (s in ch.syms && m.types[s].Unknown? ==> r.types[s] == ch.ty)
            && (ch.ty.Unknown? <==> m.choices[e.c].ty.Unknown? && forall x :: x in ch.syms ==> TypeOf(m.types, x).Unknown?)
  {
    var ch := m.choices[e.c];
    var syms := ch.syms + e.members;
    FirstKnownFinds(m.types, syms);
    FillTypesFills(m.types, syms, if ch.ty.Unknown? then FirstKnown(m.types, syms) else ch.ty, s);
    SetOwnersSets(m.owners, e.members, e.c, s);
  }

  lemma {:induction false} FirstKnownIs(types: seq<Ty>, syms: seq<nat>, i: nat)
    requires i <= |syms| && forall j :: 0 <= j < i ==> TypeOf(types, syms[j]).Unknown?
    requires i < |syms| ==> !TypeOf(types, syms[i]).Unknown?
    ensures FirstKnown(types, syms) == if i < |syms| then TypeOf(types, syms[i]) else Unknown
    decreases i
  {
    if i == 0 {
    } else {
      FirstKnownIs(types, syms[1..], i - 1);
    }
  }

  /** A choice without a type takes the type of the first of its symbols that has one. */
  lemma InferredTypeIs(m: Membership, e: ChoiceEntry, i: nat)
    requires e.c < |m.choices|
    requires var syms := m.choices[e.c].syms + e.members;
             && i <= |syms| && (forall j :: 0 <= j < i ==> TypeOf(m.types, syms[j]).Unknown?)
             && (i < |syms| ==> !TypeOf(m.types, syms[i]).Unknown?)
    ensures var ch, syms := CloseChoice(m, e).choices[e.c], m.choices[e.c].syms + e.members;
            && ch.syms == syms
            && ch.ty == if !m.choices[e.c].ty.Unknown? then m.choices[e.c].ty
                        else if i < |syms| then TypeOf(m.types, syms[i]) else Unknown
  {
    FirstKnownIs(m.types, m.choices[e.c].syms + e.members, i);
  }

  lemma {:induction false} MembersConcat<N>(a: seq<Tree<N>>, b: seq<Tree<N>>)
    ensures Members(a + b) == Members(a) + Members(b)
  {
    if a == [] {
      assert a + b == b;
    } else {
      assert (a + b)[1..] == a[1..] + b;
      MembersConcat(a[1..], b);
    }
  }

  /** The symbols of the direct children, in order: each symbol node stands behind the symbol
      nodes before it, and nothing else is in the list. */
  lemma {:induction false} MembersAre<N>(kids: seq<Tree<N>>, i: nat)
    requires i < |kids|
    ensures var before, item := |Members(kids[..i])|, kids[i].props.item;
            && Members(kids[..i + 1]) <= Members(kids)
            && |Members(kids[..i + 1])| == before + (if item.SymNode? then 1 else 0)
            && (item.SymNode? ==> Members(kids)[before] == item.s)
    ensures Members(kids[..0]) == [] && kids[..|kids|] == kids
  {
    assert kids == kids[..i + 1] + kids[i + 1..] && kids[..i + 1] == kids[..i] + [kids[i]] && [kids[i]][1..] == [];
    MembersConcat(kids[..i + 1], kids[i + 1..]);
    MembersConcat(kids[..i], [kids[i]]);
  }
}
