/** The grammar of expressions, at the level of tokens, and the parser. */
module Grammar {
  import opened Wrappers
  import opened Expressions

  /** A line of tokens is ended by None. */
  datatype Token = Name(atom: Atom) | Relation(rel: Rel) | AndSign | OrSign | NotSign | Open | Close | Other

  /** How the parser treats m, and the symbol MODULES. */
  datatype Mode = Mode(transformM: bool, modules: Atom)

  /** A plain symbol as an expression: in conditions, m stands for m && MODULES. */
  function Plain(m: Mode, a: Atom): Expr {
    if m.transformM && a == Const("m") then Expr.And(M, Leaf(m.modules)) else Leaf(a)
  }

  // The grammar
  //
  //   expr:     and_expr ['||' expr]
  //   and_expr: factor ['&&' and_expr]
  //   factor:   symbol [relation symbol] | '!' factor | '(' expr ')'

  ghost predicate IsExpr(m: Mode, ts: seq<Token>, e: Expr)
    decreases |ts|, 2
  {
    || IsAndExpr(m, ts, e)
    || (e.Or? && exists n :: 0 <= n < |ts| && ts[n] == OrSign && IsAndExpr(m, ts[..n], e.left) && IsExpr(m, ts[n + 1..], e.right))
  }

  ghost predicate IsAndExpr(m: Mode, ts: seq<Token>, e: Expr)
    decreases |ts|, 1
  {
    || IsFactor(m, ts, e)
    || (e.And? && exists n :: 0 <= n < |ts| && ts[n] == AndSign && IsFactor(m, ts[..n], e.left) && IsAndExpr(m, ts[n + 1..], e.right))
  }

  ghost predicate IsFactor(m: Mode, ts: seq<Token>, e: Expr)
    decreases |ts|, 0
  {
    || (|ts| == 1 && ts[0].Name? && e == Plain(m, ts[0].atom))
    || (|ts| == 3 && ts[0].Name? && ts[1].Relation? && ts[2].Name? && e == Cmp(ts[1].rel, ts[0].atom, ts[2].atom))
    || (|ts| > 1 && ts[0] == NotSign && e.Not? && IsFactor(m, ts[1..], e.arg))
    || (|ts| > 2 && ts[0] == Open && ts[|ts| - 1] == Close && IsExpr(m, ts[1..|ts| - 1], e))
  }

  // The parser as a function

  /** An expression, and the position after it. */
  datatype Parse = Parse(e: Expr, next: nat)

  function TokenAt(ts: seq<Token>, i: nat): Option<Token> {
    if i < |ts| then Some(ts[i]) else None
  }

  function ParseOr(m: Mode, ts: seq<Token>, i: nat): (r: Option<Parse>)
    ensures r.Some? ==> i < r.value.next <= |ts|
    decreases |ts| - i, 2
  {
    var l := ParseAnd(m, ts, i);
    if l.None? || TokenAt(ts, l.value.next) != Some(OrSign) then l else
    var r := ParseOr(m, ts, l.value.next + 1);
    if r.None? then None else Some(Parse(Expr.Or(l.value.e, r.value.e), r.value.next))
  }

  function ParseAnd(m: Mode, ts: seq<Token>, i: nat): (r: Option<Parse>)
    ensures r.Some? ==> i < r.value.next <= |ts|
    decreases |ts| - i, 1
  {
    var l := ParseFactor(m, ts, i);
    if l.None? || TokenAt(ts, l.value.next) != Some(AndSign) then l else
    var r := ParseAnd(m, ts, l.value.next + 1);
    if r.None? then None else Some(Parse(Expr.And(l.value.e, r.value.e), r.value.next))
  }

  function ParseFactor(m: Mode, ts: seq<Token>, i: nat): (r: Option<Parse>)
    ensures r.Some? ==> i < r.value.next <= |ts|
    decreases |ts| - i, 0
  {
    match TokenAt(ts, i)
    case Some(Name(a)) =>
      var rel := TokenAt(ts, i + 1);
      if rel.None? || !rel.value.Relation? then Some(Parse(Plain(m, a), i + 1)) else
      var b := TokenAt(ts, i + 2);
      if b.Some? && b.value.Name? then Some(Parse(Cmp(rel.value.rel, a, b.value.atom), i + 3)) else None
    case Some(NotSign) =>
      var x := ParseFactor(m, ts, i + 1);
      if x.Some? then Some(Parse(Expr.Not(x.value.e), x.value.next)) else None
    case Some(Open) =>
      var x := ParseOr(m, ts, i + 1);
      if x.Some? && TokenAt(ts, x.value.next) == Some(Close) then Some(Parse(x.value.e, x.value.next + 1)) else None
    case _ => None
  }

  // The parser accepts the grammar, and nothing else

  lemma Slices(ts: seq<Token>, i: nat, j: nat, n: nat)
    requires i <= i + n < j <= |ts|
    ensures ts[i..j][n] == ts[i + n] && ts[i..j][..n] == ts[i..i + n] && ts[i..j][n + 1..] == ts[i + n + 1..j]
  {
  }

  lemma {:induction false} OrIsSound(m: Mode, ts: seq<Token>, i: nat)
    ensures var r := ParseOr(m, ts, i); r.Some? ==> IsExpr(m, ts[i..r.value.next], r.value.e)
    decreases |ts| - i, 2
  {
    hide IsAndExpr, ParseAnd;
    AndIsSound(m, ts, i);
    var l, r := ParseAnd(m, ts, i), ParseOr(m, ts, i);
    if r.Some? && r != l {
      var n := l.value.next;
      OrIsSound(m, ts, n + 1);
      Slices(ts, i, r.value.next, n - i);
    }
  }

  lemma {:induction false} AndIsSound(m: Mode, ts: seq<Token>, i: nat)
    ensures var r := ParseAnd(m, ts, i); r.Some? ==> IsAndExpr(m, ts[i..r.value.next], r.value.e)
    decreases |ts| - i, 1
  {
    hide IsFactor, ParseFactor;
    FactorIsSound(m, ts, i);
    var l, r := ParseFactor(m, ts, i), ParseAnd(m, ts, i);
    if r.Some? && r != l {
      var n := l.value.next;
      AndIsSound(m, ts, n + 1);
      Slices(ts, i, r.value.next, n - i);
    }
  }

  lemma {:induction false} FactorIsSound(m: Mode, ts: seq<Token>, i: nat)
    ensures var r := ParseFactor(m, ts, i); r.Some? ==> IsFactor(m, ts[i..r.value.next], r.value.e)
    decreases |ts| - i, 0
  {
    var r := ParseFactor(m, ts, i);
    if r.Some? {
      var all := ts[i..r.value.next];
      if ts[i] == NotSign {
        FactorIsSound(m, ts, i + 1);
        assert all[1..] == ts[i + 1..r.value.next];
      } else if ts[i] == Open {
        OrIsSound(m, ts, i + 1);
        assert all[1..|all| - 1] == ts[i + 1..r.value.next - 1];
      }
    }
  }

  /** What may follow a factor, an and_expr and an expr that is complete. */
  predicate EndsFactor(t: Option<Token>) { t.None? || !t.value.Relation? }
  predicate EndsAnd(t: Option<Token>) { EndsFactor(t) && t != Some(AndSign) }
  predicate EndsExpr(t: Option<Token>) { EndsAnd(t) && t != Some(OrSign) }

  lemma {:induction false} OrIsComplete(m: Mode, ts: seq<Token>, i: nat, j: nat, e: Expr)
    requires i <= j <= |ts| && IsExpr(m, ts[i..j], e) && EndsExpr(TokenAt(ts, j))
    ensures ParseOr(m, ts, i) == Some(Parse(e, j))
    decreases j - i, 2
  {
    hide IsAndExpr, ParseAnd, IsExpr;
    var all := ts[i..j];
    ExprCases(m, all, e);
    if IsAndExpr(m, all, e) {
      AndIsComplete(m, ts, i, j, e);
    } else {
      var n :| 0 <= n < |all| && all[n] == OrSign && IsAndExpr(m, all[..n], e.left) && IsExpr(m, all[n + 1..], e.right);
      Slices(ts, i, j, n);
      AndIsComplete(m, ts, i, i + n, e.left);
      OrIsComplete(m, ts, i + n + 1, j, e.right);
    }
  }

  lemma ExprCases(m: Mode, ts: seq<Token>, e: Expr)
    requires IsExpr(m, ts, e)
    ensures IsAndExpr(m, ts, e) || (e.Or? && exists n ::
              0 <= n < |ts| && ts[n] == OrSign && IsAndExpr(m, ts[..n], e.left) && IsExpr(m, ts[n + 1..], e.right))
  {
  }

  lemma {:induction false} AndIsComplete(m: Mode, ts: seq<Token>, i: nat, j: nat, e: Expr)
    requires i <= j <= |ts| && IsAndExpr(m, ts[i..j], e) && EndsAnd(TokenAt(ts, j))
    ensures ParseAnd(m, ts, i) == Some(Parse(e, j))
    decreases j - i, 1
  {
    hide IsFactor, ParseFactor, IsAndExpr;
    var all := ts[i..j];
    AndCases(m, all, e);
    if IsFactor(m, all, e) {
      FactorIsComplete(m, ts, i, j, e);
    } else {
      var n :| 0 <= n < |all| && all[n] == AndSign && IsFactor(m, all[..n], e.left) && IsAndExpr(m, all[n + 1..], e.right);
      Slices(ts, i, j, n);
      FactorIsComplete(m, ts, i, i + n, e.left);
      AndIsComplete(m, ts, i + n + 1, j, e.right);
    }
  }

  lemma AndCases(m: Mode, ts: seq<Token>, e: Expr)
    requires IsAndExpr(m, ts, e)
    ensures IsFactor(m, ts, e) || (e.And? && exists n ::
              0 <= n < |ts| && ts[n] == AndSign && IsFactor(m, ts[..n], e.left) && IsAndExpr(m, ts[n + 1..], e.right))
  {
  }

  lemma {:induction false} FactorIsComplete(m: Mode, ts: seq<Token>, i: nat, j: nat, e: Expr)
    requires i <= j <= |ts| && IsFactor(m, ts[i..j], e) && EndsFactor(TokenAt(ts, j))
    ensures ParseFactor(m, ts, i) == Some(Parse(e, j))
    decreases j - i, 0
  {
    hide IsExpr, ParseOr, IsFactor;
    var all := ts[i..j];
    FactorCases(m, all, e);
    Slices(ts, i, j, 0);
    if all[0].Name? {
      if |all| == 3 {
        Slices(ts, i, j, 1);
        Slices(ts, i, j, 2);
      }
    } else if all[0] == NotSign {
      FactorIsComplete(m, ts, i + 1, j, e.arg);
    } else {
      Slices(ts, i, j, |all| - 1);
      assert all[1..|all| - 1] == ts[i + 1..j - 1] by { Slices(ts, i, j - 1, 0); }
      OrIsComplete(m, ts, i + 1, j - 1, e);
    }
  }

  lemma FactorCases(m: Mode, ts: seq<Token>, e: Expr)
    requires IsFactor(m, ts, e)
    ensures ts != []
    ensures ts[0].Name? ==>
              || (|ts| == 1 && e == Plain(m, ts[0].atom))
              || (|ts| == 3 && ts[1].Relation? && ts[2].Name? && e == Cmp(ts[1].rel, ts[0].atom, ts[2].atom))
    ensures ts[0] == NotSign ==> |ts| > 1 && e.Not? && IsFactor(m, ts[1..], e.arg)
    ensures !ts[0].Name? && ts[0] != NotSign ==>
              |ts| > 2 && ts[0] == Open && ts[|ts| - 1] == Close && IsExpr(m, ts[1..|ts| - 1], e)
  {
    hide IsExpr;
  }

  /** A whole line is accepted if and only if the grammar derives it, and the result is the
      one expression that it derives. */
  lemma ParserIsExact(m: Mode, ts: seq<Token>, e: Expr)
    ensures ParseOr(m, ts, 0) == Some(Parse(e, |ts|)) <==> IsExpr(m, ts, e)
  {
    OrIsSound(m, ts, 0);
    assert ts[0..|ts|] == ts;
    if IsExpr(m, ts, e) { OrIsComplete(m, ts, 0, |ts|, e); }
  }
}
