/** The expression parser, which advances over the tokens of a line. */
module Parsing {
  import opened Wrappers
  import opened Expressions
  import opened Grammar

  class Parser {
    const tokens: seq<Token>
    const mode: Mode
    var tokensI: nat

    constructor (tokens: seq<Token>, mode: Mode)
      ensures this.tokens == tokens && this.mode == mode && tokensI == 0
    {
      this.tokens, this.mode, tokensI := tokens, mode, 0;
    }

    /** The next token; None at the end of the line. */
    function Peek(): Option<Token>
      reads this
    {
      TokenAt(tokens, tokensI)
    }

    /** Whether the parser got as far as the grammar says; None stands for KconfigError. */
    ghost predicate Got(r: Option<Expr>, p: Option<Parse>)
      reads this
    {
      if p.None? then r.None? else r == Some(p.value.e) && tokensI == p.value.next
    }

    /** _check_token() */
    method CheckToken(t: Token) returns (found: bool)
      modifies this
      ensures found <==> old(Peek()) == Some(t)
      ensures tokensI == old(tokensI) + if found then 1 else 0
    {
      found := Peek() == Some(t);
      if found { tokensI := tokensI + 1; }
    }

    /** _parse_expr() */
    method ParseExpr() returns (r: Option<Expr>)
      modifies this
      ensures Got(r, ParseOr(mode, tokens, old(tokensI)))
      decreases |tokens| - tokensI, 2
    {
      r := ParseAndExpr();
      if r.None? { return; }
      var found := CheckToken(OrSign);
      if found {
        var left := r.value;
        r := ParseExpr();
        if r.Some? { r := Some(Or(left, r.value)); }
      }
    }

    /** _parse_and_expr() */
    method ParseAndExpr() returns (r: Option<Expr>)
      modifies this
      ensures Got(r, ParseAnd(mode, tokens, old(tokensI)))
      decreases |tokens| - tokensI, 1
    {
      r := ParseAFactor();
      if r.None? { return; }
      var found := CheckToken(AndSign);
      if found {
        var left := r.value;
        r := ParseAndExpr();
        if r.Some? { r := Some(And(left, r.value)); }
      }
    }

    /** _parse_factor() */
    method ParseAFactor() returns (r: Option<Expr>)
      modifies this
      ensures Got(r, ParseFactor(mode, tokens, old(tokensI)))
      decreases |tokens| - tokensI, 0
    {
      var token := Peek();
      if token.None? { return None; }
      tokensI := tokensI + 1;
      match token.value
      case Name(a) =>
        var rel := Peek();
        if rel.None? || !rel.value.Relation? {
          if mode.transformM && a == Const("m") {
            return Some(And(M, Leaf(mode.modules)));
          }
          return Some(Leaf(a));
        }
        tokensI := tokensI + 1;
        var b := Peek();
        if b.None? || !b.value.Name? { return None; }
        tokensI := tokensI + 1;
        return Some(Cmp(rel.value.rel, a, b.value.atom));
      case NotSign =>
        r := ParseAFactor();
        if r.Some? { r := Some(Not(r.value)); }
      case Open =>
        r := ParseExpr();
        if r.Some? {
          var found := CheckToken(Close);
          if !found { r := None; }
        }
      case _ =>
        r := None;
    }

    /** _expect_expr_and_eol() accepts the rest of the line exactly if the grammar derives it. */
    method ExpectExprAndEol() returns (r: Option<Expr>)
      requires tokensI <= |tokens|
      modifies this
      ensures forall e :: r == Some(e) <==> IsExpr(mode, tokens[old(tokensI)..], e)
    {
      ghost var start := tokensI;
      r := ParseExpr();
      if r.Some? && Peek().Some? { r := None; }
      ghost var rest := tokens[start..];
      assert tokens[start..|tokens|] == rest;
      OrIsSound(mode, tokens, start);
      forall e | IsExpr(mode, rest, e) ensures ParseOr(mode, tokens, start) == Some(Parse(e, |tokens|)) {
        OrIsComplete(mode, tokens, start, |tokens|, e);
      }
    }
  }
}
