/** Expressions as text, and back: expr_str() against the parser. */
module Printing {
  import opened Wrappers
  import opened Tristate
  import opened Expressions
  import opened Evaluation
  import opened Grammar

  /** There is no choice in the expression. Choices have no syntax. */
  predicate ChoiceFree(e: Expr) {
    match e
    case Leaf(_) => true
    case Mode(_) => false
    case And(l, r) => ChoiceFree(l) && ChoiceFree(r)
    case Or(l, r) => ChoiceFree(l) && ChoiceFree(r)
    case Not(x) => ChoiceFree(x)
    case Cmp(_, _, _) => true
  }

  /** The tokens of expr_str(e). */
  function Print(e: Expr): seq<Token> {
    match e
    case Leaf(a) => [Name(a)]
    case Mode(_) => [Token.Other]
    case And(l, r) => (if l.Or? then Parens(Print(l)) else Print(l)) + [AndSign] + (if r.Or? then Parens(Print(r)) else Print(r))
    case Or(l, r) => (if l.And? then Parens(Print(l)) else Print(l)) + [OrSign] + (if r.And? then Parens(Print(r)) else Print(r))
    case Not(x) => if x.Leaf? || x.Mode? then [NotSign] + Print(x) else [NotSign] + Parens(Print(x))
    case Cmp(rel, a, b) => [Name(a), Relation(rel), Name(b)]
  }

  function Parens(ts: seq<Token>): seq<Token> {
    [Open] + ts + [Close]
  }

  /** split_expr(): the top-level operands. */
  function SplitAnd(e: Expr): (r: seq<Expr>)
    ensures r != [] && forall x :: x in r ==> !x.And?
  {
    if e.And? then SplitAnd(e.left) + SplitAnd(e.right) else [e]
  }

  function SplitOr(e: Expr): (r: seq<Expr>)
    ensures r != [] && forall x :: x in r ==> !x.Or?
  {
    if e.Or? then SplitOr(e.left) + SplitOr(e.right) else [e]
  }

  /** op1 && (op2 && (op3 && ...)) */
  function RightAnd(ops: seq<Expr>): Expr
    requires ops != []
  {
    if |ops| == 1 then ops[0] else Expr.And(ops[0], RightAnd(ops[1..]))
  }

  function RightOr(ops: seq<Expr>): Expr
    requires ops != []
  {
    if |ops| == 1 then ops[0] else Expr.Or(ops[0], RightOr(ops[1..]))
  }

  /** The operands of a chain, each rebuilt. */
  function AndOperands(m: Grammar.Mode, e: Expr): (r: seq<Expr>)
    ensures r != []
    decreases e, 1
  {
    if e.And? then AndOperands(m, e.left) + AndOperands(m, e.right) else [Rebuilt(m, e)]
  }

  function OrOperands(m: Grammar.Mode, e: Expr): (r: seq<Expr>)
    ensures r != []
    decreases e, 1
  {
    if e.Or? then OrOperands(m, e.left) + OrOperands(m, e.right) else [Rebuilt(m, e)]
  }

  /** What an expression becomes when it is printed and parsed: chains nest to the right. */
  function Rebuilt(m: Grammar.Mode, e: Expr): Expr
    decreases e, 0
  {
    match e
    case And(l, r) => RightAnd(AndOperands(m, l) + AndOperands(m, r))
    case Or(l, r) => RightOr(OrOperands(m, l) + OrOperands(m, r))
    case Not(x) => Expr.Not(Rebuilt(m, x))
    case Leaf(a) => Plain(m, a)
    case _ => e
  }

  function RebuiltAll(m: Grammar.Mode, es: seq<Expr>): seq<Expr> {
    if es == [] then [] else [Rebuilt(m, es[0])] + RebuiltAll(m, es[1..])
  }

  lemma {:induction false} RebuiltConcat(m: Grammar.Mode, a: seq<Expr>, b: seq<Expr>)
    ensures RebuiltAll(m, a + b) == RebuiltAll(m, a) + RebuiltAll(m, b)
  {
    if a == [] {
      assert a + b == b;
    } else {
      assert (a + b)[1..] == a[1..] + b;
      RebuiltConcat(m, a[1..], b);
    }
  }

  /** Chains are rebuilt from what split_expr() gives. */
  lemma {:induction false} AndIsSplit(m: Grammar.Mode, e: Expr)
    ensures AndOperands(m, e) == RebuiltAll(m, SplitAnd(e))
    ensures e.And? ==> Rebuilt(m, e) == RightAnd(RebuiltAll(m, SplitAnd(e)))
  {
    if !e.And? {
    } else {
      AndIsSplit(m, e.left);
      AndIsSplit(m, e.right);
      RebuiltConcat(m, SplitAnd(e.left), SplitAnd(e.right));
    }
  }

  lemma {:induction false} OrIsSplit(m: Grammar.Mode, e: Expr)
    ensures OrOperands(m, e) == RebuiltAll(m, SplitOr(e))
    ensures e.Or? ==> Rebuilt(m, e) == RightOr(RebuiltAll(m, SplitOr(e)))
  {
    if !e.Or? {
    } else {
      OrIsSplit(m, e.left);
      OrIsSplit(m, e.right);
      RebuiltConcat(m, SplitOr(e.left), SplitOr(e.right));
    }
  }

  // Chains of operands in the grammar

  /** Factors, separated by '&&'. */
  ghost predicate AndChain(m: Grammar.Mode, ts: seq<Token>, ops: seq<Expr>)
    requires ops != []
    decreases |ops|
  {
    if |ops| == 1 then IsFactor(m, ts, ops[0]) else
    exists n :: 0 <= n < |ts| && ts[n] == AndSign && IsFactor(m, ts[..n], ops[0]) && AndChain(m, ts[n + 1..], ops[1..])
  }

  /** Operands of '||', separated by it. */
  ghost predicate OrChain(m: Grammar.Mode, ts: seq<Token>, ops: seq<Expr>)
    requires ops != []
    decreases |ops|
  {
    if |ops| == 1 then IsFactor(m, ts, ops[0]) else
    exists n :: 0 <= n < |ts| && ts[n] == OrSign && IsFactor(m, ts[..n], ops[0]) && OrChain(m, ts[n + 1..], ops[1..])
  }

  lemma JoinedSlices(a: seq<Token>, sep: Token, b: seq<Token>, n: nat)
    requires n < |a|
    ensures var all := a + [sep] + b;
            all[n] == a[n] && all[..n] == a[..n] && all[n + 1..] == a[n + 1..] + [sep] + b
  {
  }

  lemma {:induction false} AndChainConcat(m: Grammar.Mode, a: seq<Token>, xs: seq<Expr>, b: seq<Token>, ys: seq<Expr>)
    requires xs != [] && ys != [] && AndChain(m, a, xs) && AndChain(m, b, ys)
    ensures AndChain(m, a + [AndSign] + b, xs + ys)
    decreases |xs|
  {
    hide IsFactor;
    var all := a + [AndSign] + b;
    assert (xs + ys)[0] == xs[0] && (xs + ys)[1..] == xs[1..] + ys;
    if |xs| == 1 {
      assert xs[1..] + ys == ys && all[|a|] == AndSign && all[..|a|] == a && all[|a| + 1..] == b;
    } else {
      var n :| 0 <= n < |a| && a[n] == AndSign && IsFactor(m, a[..n], xs[0]) && AndChain(m, a[n + 1..], xs[1..]);
      AndChainConcat(m, a[n + 1..], xs[1..], b, ys);
      JoinedSlices(a, AndSign, b, n);
    }
  }

  lemma {:induction false} OrChainConcat(m: Grammar.Mode, a: seq<Token>, xs: seq<Expr>, b: seq<Token>, ys: seq<Expr>)
    requires xs != [] && ys != [] && OrChain(m, a, xs) && OrChain(m, b, ys)
    ensures OrChain(m, a + [OrSign] + b, xs + ys)
    decreases |xs|
  {
    hide IsFactor;
    var all := a + [OrSign] + b;
    assert (xs + ys)[0] == xs[0] && (xs + ys)[1..] == xs[1..] + ys;
    if |xs| == 1 {
      assert xs[1..] + ys == ys && all[|a|] == OrSign && all[..|a|] == a && all[|a| + 1..] == b;
    } else {
      var n :| 0 <= n < |a| && a[n] == OrSign && IsFactor(m, a[..n], xs[0]) && OrChain(m, a[n + 1..], xs[1..]);
      OrChainConcat(m, a[n + 1..], xs[1..], b, ys);
      JoinedSlices(a, OrSign, b, n);
    }
  }

  lemma {:induction false} AndChainDerives(m: Grammar.Mode, ts: seq<Token>, ops: seq<Expr>)
    requires ops != [] && AndChain(m, ts, ops)
    ensures IsAndExpr(m, ts, RightAnd(ops))
    decreases |ops|
  {
    hide IsFactor;
    if |ops| == 1 {
    } else {
      var n :| 0 <= n < |ts| && ts[n] == AndSign && IsFactor(m, ts[..n], ops[0]) && AndChain(m, ts[n + 1..], ops[1..]);
      AndChainDerives(m, ts[n + 1..], ops[1..]);
    }
  }

  lemma {:induction false} OrChainDerives(m: Grammar.Mode, ts: seq<Token>, ops: seq<Expr>)
    requires ops != [] && OrChain(m, ts, ops)
    ensures IsExpr(m, ts, RightOr(ops))
    decreases |ops|
  {
    hide IsFactor;
    if |ops| == 1 {
    } else {
      var n :| 0 <= n < |ts| && ts[n] == OrSign && IsFactor(m, ts[..n], ops[0]) && OrChain(m, ts[n + 1..], ops[1..]);
      OrChainDerives(m, ts[n + 1..], ops[1..]);
    }
  }

  // Printing gives what the grammar derives

  lemma ParensIsFactor(m: Grammar.Mode, ts: seq<Token>, e: Expr)
    requires IsExpr(m, ts, e)
    ensures IsFactor(m, Parens(ts), e)
  {
    hide IsExpr;
    assert Parens(ts)[1..|Parens(ts)| - 1] == ts;
    assert ts != [] by { ExprNotEmpty(m, ts, e); }
  }

  lemma ExprNotEmpty(m: Grammar.Mode, ts: seq<Token>, e: Expr)
    requires IsExpr(m, ts, e)
    ensures ts != []
  {
    assert ts == [] ==> !IsFactor(m, ts, e);
    assert ts == [] ==> !IsAndExpr(m, ts, e);
  }

  /** The tokens of an operand of '&&' or '||', with the parentheses it gets. */
  function PrintOperand(e: Expr, parens: bool): seq<Token> {
    if parens then Parens(Print(e)) else Print(e)
  }

  lemma {:induction false} PrintIsAndChain(m: Grammar.Mode, e: Expr)
    requires ChoiceFree(e)
    ensures AndChain(m, PrintOperand(e, e.Or?), AndOperands(m, e))
    decreases e, 1
  {
    if e.And? {
      PrintIsAndChain(m, e.left);
      PrintIsAndChain(m, e.right);
      AndChainConcat(m, PrintOperand(e.left, e.left.Or?), AndOperands(m, e.left),
                     PrintOperand(e.right, e.right.Or?), AndOperands(m, e.right));
    } else {
      PrintIsFactor(m, e);
    }
  }

  lemma {:induction false} PrintIsOrChain(m: Grammar.Mode, e: Expr)
    requires ChoiceFree(e)
    ensures OrChain(m, PrintOperand(e, e.And?), OrOperands(m, e))
    decreases e, 1
  {
    if e.Or? {
      PrintIsOrChain(m, e.left);
      PrintIsOrChain(m, e.right);
      OrChainConcat(m, PrintOperand(e.left, e.left.And?), OrOperands(m, e.left),
                    PrintOperand(e.right, e.right.And?), OrOperands(m, e.right));
    } else {
      PrintIsFactor(m, e);
    }
  }

  /** Chains need parentheses to be factors; everything else is a factor. */
  lemma {:induction false} PrintIsFactor(m: Grammar.Mode, e: Expr)
    requires ChoiceFree(e)
    ensures IsFactor(m, PrintOperand(e, e.And? || e.Or?), Rebuilt(m, e))
    ensures IsExpr(m, Print(e), Rebuilt(m, e))
    decreases e, 0
  {
    hide IsFactor, AndChain, OrChain, IsAndExpr, IsExpr, RightAnd, RightOr;
    match e
    case And(l, r) =>
      PrintIsAndChain(m, l);
      PrintIsAndChain(m, r);
      AndChainConcat(m, PrintOperand(l, l.Or?), AndOperands(m, l), PrintOperand(r, r.Or?), AndOperands(m, r));
      AndChainDerives(m, Print(e), AndOperands(m, e));
      AndIsExpr(m, Print(e), Rebuilt(m, e));
      ParensIsFactor(m, Print(e), Rebuilt(m, e));
    case Or(l, r) =>
      PrintIsOrChain(m, l);
      PrintIsOrChain(m, r);
      OrChainConcat(m, PrintOperand(l, l.And?), OrOperands(m, l), PrintOperand(r, r.And?), OrOperands(m, r));
      OrChainDerives(m, Print(e), OrOperands(m, e));
      ParensIsFactor(m, Print(e), Rebuilt(m, e));
    case Not(x) =>
      PrintIsFactor(m, x);
      NotIsFactor(m, PrintOperand(x, !x.Leaf?), Rebuilt(m, x)) by {
        if x.Not? || x.Cmp? { ParensIsFactor(m, Print(x), Rebuilt(m, x)); }
      }
      FactorIsExpr(m, Print(e), Rebuilt(m, e));
    case Leaf(a) =>
      AtomIsFactor(m, a);
      FactorIsExpr(m, Print(e), Rebuilt(m, e));
    case Cmp(rel, a, b) =>
      RelationIsFactor(m, rel, a, b);
      FactorIsExpr(m, Print(e), Rebuilt(m, e));
  }

  lemma AndIsExpr(m: Grammar.Mode, ts: seq<Token>, e: Expr)
    requires IsAndExpr(m, ts, e)
    ensures IsExpr(m, ts, e)
  {
  }

  lemma FactorIsExpr(m: Grammar.Mode, ts: seq<Token>, e: Expr)
    requires IsFactor(m, ts, e)
    ensures IsExpr(m, ts, e)
  {
  }

  lemma NotIsFactor(m: Grammar.Mode, ts: seq<Token>, e: Expr)
    requires IsFactor(m, ts, e)
    ensures IsFactor(m, [NotSign] + ts, Expr.Not(e))
  {
    FactorNotEmpty(m, ts, e);
    assert ([NotSign] + ts)[1..] == ts;
  }

  lemma FactorNotEmpty(m: Grammar.Mode, ts: seq<Token>, e: Expr)
    requires IsFactor(m, ts, e)
    ensures ts != []
  {
  }

  lemma AtomIsFactor(m: Grammar.Mode, a: Atom)
    ensures IsFactor(m, [Name(a)], Plain(m, a))
  {
  }

  lemma RelationIsFactor(m: Grammar.Mode, rel: Rel, a: Atom, b: Atom)
    ensures IsFactor(m, [Name(a), Relation(rel), Name(b)], Cmp(rel, a, b))
  {
  }

  /** Printing and parsing rebuilds the expression, with chains nested to the right. */
  lemma PrintedIsParsed(m: Grammar.Mode, e: Expr)
    requires ChoiceFree(e)
    ensures ParseOr(m, Print(e), 0) == Some(Parse(Rebuilt(m, e), |Print(e)|))
  {
    PrintIsFactor(m, e);
    ParserIsExact(m, Print(e), Rebuilt(m, e));
  }

  // ... and this keeps the value

  /** The expression with m replaced by what it stands for. */
  function Transformed(m: Grammar.Mode, e: Expr): Expr {
    match e
    case Leaf(a) => Plain(m, a)
    case And(l, r) => Expr.And(Transformed(m, l), Transformed(m, r))
    case Or(l, r) => Expr.Or(Transformed(m, l), Transformed(m, r))
    case Not(x) => Expr.Not(Transformed(m, x))
    case _ => e
  }

  lemma {:induction false} NothingTransformed(m: Grammar.Mode, e: Expr)
    requires !m.transformM
    ensures Transformed(m, e) == e
  {
    match e
    case And(l, r) => NothingTransformed(m, l); NothingTransformed(m, r);
    case Or(l, r) => NothingTransformed(m, l); NothingTransformed(m, r);
    case Not(x) => NothingTransformed(m, x);
    case _ =>
  }

  lemma {:induction false} RightAndIsMin(k: Config, a: seq<Expr>, b: seq<Expr>, env: Env)
    requires a != [] && b != []
    ensures ExprOut(k, RightAnd(a + b), env).v == Min(ExprOut(k, RightAnd(a), env).v, ExprOut(k, RightAnd(b), env).v)
  {
    assert (a + b)[0] == a[0] && (a + b)[1..] == a[1..] + b;
    if |a| == 1 {
      assert a[1..] + b == b;
    } else {
      RightAndIsMin(k, a[1..], b, env);
    }
  }

  lemma {:induction false} RightOrIsMax(k: Config, a: seq<Expr>, b: seq<Expr>, env: Env)
    requires a != [] && b != []
    ensures ExprOut(k, RightOr(a + b), env).v == Max(ExprOut(k, RightOr(a), env).v, ExprOut(k, RightOr(b), env).v)
  {
    assert (a + b)[0] == a[0] && (a + b)[1..] == a[1..] + b;
    if |a| == 1 {
      assert a[1..] + b == b;
    } else {
      RightOrIsMax(k, a[1..], b, env);
    }
  }

  /** In every environment, the rebuilt expression has the value of the original. */
  lemma {:induction false} RebuiltKeepsValue(k: Config, m: Grammar.Mode, e: Expr, env: Env)
    ensures ExprOut(k, Rebuilt(m, e), env).v == ExprOut(k, Transformed(m, e), env).v
    ensures ExprOut(k, RightAnd(AndOperands(m, e)), env).v == ExprOut(k, Transformed(m, e), env).v
    ensures ExprOut(k, RightOr(OrOperands(m, e)), env).v == ExprOut(k, Transformed(m, e), env).v
  {
    match e
    case And(l, r) =>
      RebuiltKeepsValue(k, m, l, env);
      RebuiltKeepsValue(k, m, r, env);
      RightAndIsMin(k, AndOperands(m, l), AndOperands(m, r), env);
    case Or(l, r) =>
      RebuiltKeepsValue(k, m, l, env);
      RebuiltKeepsValue(k, m, r, env);
      RightOrIsMax(k, OrOperands(m, l), OrOperands(m, r), env);
    case Not(x) => RebuiltKeepsValue(k, m, x, env);
    case _ =>
  }
}
