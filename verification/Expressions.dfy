/** Kconfig expressions, and the static description of symbols and choices that is
    left when parsing and menu finalization are over. */
module Expressions {
  import opened Wrappers

  datatype Ty = Unknown | Bool | Tristate | String | Int | Hex {
    predicate Logic() { Bool? || Tristate? }

    /** _TYPE_TO_BASE */
    function Base(): nat {
      if Hex? then 16 else if Int? then 10 else 0
    }
  }

  /** A Symbol object: a defined symbol, named by its position in
      unique_defined_syms, or a constant or undefined one, which is its name. */
  datatype Atom = Sym(id: nat) | Const(name: string)

  datatype Rel = Equal | Unequal | Less | LessEqual | Greater | GreaterEqual

  datatype Expr =
    | Leaf(atom: Atom)
    | Mode(choice: nat)   // a choice in an expression stands for its mode
    | And(left: Expr, right: Expr)
    | Or(left: Expr, right: Expr)
    | Not(arg: Expr)
    | Cmp(rel: Rel, a: Atom, b: Atom)

  const N := Leaf(Const("n"))
  const M := Leaf(Const("m"))
  const Y := Leaf(Const("y"))

  datatype Default = Default(value: Expr, cond: Expr)
  datatype Range = Range(low: Atom, high: Atom, cond: Expr)
  datatype ChoiceDefault = ChoiceDefault(atom: Atom, cond: Expr)

  datatype Symbol = Symbol(
    name: string,
    ty: Ty,
    prompts: seq<Expr>,      // conditions of the menu nodes that have a prompt
    defaults: seq<Default>,
    ranges: seq<Range>,
    revDep: Expr,
    weakRevDep: Expr,
    directDep: Expr,
    choice: Option<nat>,
    hidden: bool)            // 'option env' or 'option defconfig_list'

  datatype Choice = Choice(
    ty: Ty,
    optional: bool,
    prompts: seq<Expr>,
    defaults: seq<ChoiceDefault>,
    syms: seq<nat>)

  const NO_SYMBOL := Symbol("", Unknown, [], [], [], N, N, N, None, false)
  const NO_CHOICE := Choice(Unknown, false, [], [], [])

  /** 'modules' is the MODULES symbol, if it is defined. */
  datatype Config = Config(syms: seq<Symbol>, choices: seq<Choice>, modules: Option<nat>) {
    function Sym(s: nat): Symbol {
      if s < |syms| then syms[s] else NO_SYMBOL
    }

    function Choice(c: nat): Choice {
      if c < |choices| then choices[c] else NO_CHOICE
    }

    function TypeOf(a: Atom): Ty {
      match a
      case Sym(s) => Sym(s).ty
      case Const(name) => if name == "n" || name == "m" || name == "y" then Tristate else Unknown
    }
  }

  /** An item: what has properties, a value and a cache. */
  datatype Item = SymItem(s: nat) | ChItem(c: nat)

  function AtomItems(a: Atom): set<Item> {
    match a
    case Sym(s) => {SymItem(s)}
    case Const(_) => {}
  }

  /** The non-constant items in an expression, which _depend_on() collects. */
  function ExprItems(e: Expr): set<Item> {
    match e
    case Leaf(a) => AtomItems(a)
    case Mode(c) => {ChItem(c)}
    case And(l, r) => ExprItems(l) + ExprItems(r)
    case Or(l, r) => ExprItems(l) + ExprItems(r)
    case Not(x) => ExprItems(x)
    case Cmp(_, a, b) => AtomItems(a) + AtomItems(b)
  }
}
