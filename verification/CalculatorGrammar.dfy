/**
 The expression language of the Pulse calculator, stated declaratively: its tokens, its expression
 trees, the token string a tree stands for, which trees the grammar admits, and the value of a tree.
 Nothing here knows how the calculator parses.
 */
module CalculatorGrammar {

  datatype Token =
    | Numeral(text: string)
    | Word(name: string)
    | Symbol(c: char)

  /** The number type is left abstract: IEEE doubles obey none of the field laws, and no proof needs any. */
  datatype Arithmetic<!N> = Arithmetic(
    literal: string -> N,
    add: (N, N) -> N,
    sub: (N, N) -> N,
    mul: (N, N) -> N,
    div: (N, N) -> N,
    rem: (N, N) -> N,
    pow: (N, N) -> N,
    negate: N -> N,
    hundred: N,
    pi: N,
    e: N,
    tau: N,
    call: (string, N) -> N,
    isFinite: N -> bool)

  datatype Operator = Plus | Minus | Times | Over | Modulo

  datatype Expr =
    | Number(text: string, percents: nat)
    | Constant(name: string)
    | Call(fn: string, arg: Expr)
    | Group(inner: Expr, percents: nat)
    | Sign(minus: bool, operand: Expr)
    | Power(base: Expr, exponent: Expr)
    | Binary(op: Operator, left: Expr, right: Expr)

  const CONSTANTS: set<string> := {"pi", "e", "tau"}

  /** "constructor" is not a mathematical function, but the lookup table is a plain JavaScript object,
      so that name finds Object, which returns a number unchanged. */
  const FUNCTIONS: set<string> := {
    "sqrt", "abs", "ceil", "floor", "round", "sin", "cos", "tan", "asin", "acos", "atan", "log", "ln", "exp",
    "constructor"}

  function OperatorChar(op: Operator): char {
    match op
    case Plus => '+'
    case Minus => '-'
    case Times => '*'
    case Over => '/'
    case Modulo => '%'
  }

  predicate IsAdditive(op: Operator) {
    op.Plus? || op.Minus?
  }

  function Percents(k: nat): (s: seq<Token>)
    ensures |s| == k
  {
    seq(k, i => Symbol('%'))
  }

  /** The tokens an expression tree stands for. */
  function Yield(e: Expr): (s: seq<Token>) {
    match e
    case Number(text, k) => [Numeral(text)] + Percents(k)
    case Constant(name) => [Word(name)]
    case Call(fn, arg) => [Word(fn), Symbol('(')] + Yield(arg) + [Symbol(')')]
    case Group(inner, k) => [Symbol('(')] + Yield(inner) + [Symbol(')')] + Percents(k)
    case Sign(minus, operand) => [Symbol(if minus then '-' else '+')] + Yield(operand)
    case Power(base, exponent) => Yield(base) + [Symbol('^')] + Yield(exponent)
    case Binary(op, left, right) => Yield(left) + [Symbol(OperatorChar(op))] + Yield(right)
  }

  /** Does the text of e end in a number or a closing parenthesis that a following '%' would attach to? */
  predicate TakesPercent(e: Expr) {
    match e
    case Number(_, _) => true
    case Group(_, _) => true
    case Constant(_) => false
    case Call(_, _) => false
    case Sign(_, operand) => TakesPercent(operand)
    case Power(_, exponent) => TakesPercent(exponent)
    case Binary(_, _, right) => TakesPercent(right)
  }

  datatype Level = Sum | Product | Exponential | Signed | Primary

  function Tightness(l: Level): nat {
    match l
    case Sum => 0
    case Product => 1
    case Exponential => 2
    case Signed => 3
    case Primary => 4
  }

  /** The grammar. A tree is admitted at a level if its own operator binds at least that tightly:
      + - * / and binary % group to the left, ^ to the right, a sign binds tighter than ^, and a binary %
      can only follow a constant or a call, since any other operand takes the % as a percent sign. */
  predicate Grammatical(e: Expr, l: Level) {
    match e
    case Number(_, _) => true
    case Constant(name) => name in CONSTANTS
    case Call(fn, arg) => fn in FUNCTIONS && Grammatical(arg, Sum)
    case Group(inner, _) => Grammatical(inner, Sum)
    case Sign(_, operand) => Tightness(l) <= 3 && Grammatical(operand, Signed)
    case Power(base, exponent) => Tightness(l) <= 2 && Grammatical(base, Signed) && Grammatical(exponent, Exponential)
    case Binary(op, left, right) =>
      if IsAdditive(op) then
        l.Sum? && Grammatical(left, Sum) && Grammatical(right, Product)
      else
        && Tightness(l) <= 1
        && Grammatical(left, Product)
        && Grammatical(right, Exponential)
        && (op.Modulo? ==> !TakesPercent(left))
  }

  function Apply<N>(ar: Arithmetic<N>, op: Operator, x: N, y: N): N {
    match op
    case Plus => ar.add(x, y)
    case Minus => ar.sub(x, y)
    case Times => ar.mul(x, y)
    case Over => ar.div(x, y)
    case Modulo => ar.rem(x, y)
  }

  /** v with k percent signs after it. */
  function ApplyPercents<N>(ar: Arithmetic<N>, v: N, k: nat): N {
    if k == 0 then v else ar.div(ApplyPercents(ar, v, k - 1), ar.hundred)
  }

  function ConstantValue<N>(ar: Arithmetic<N>, name: string): N {
    if name == "pi" then ar.pi else if name == "e" then ar.e else ar.tau
  }

  function Value<N>(ar: Arithmetic<N>, e: Expr): N {
    match e
    case Number(text, k) => ApplyPercents(ar, ar.literal(text), k)
    case Constant(name) => ConstantValue(ar, name)
    case Call(fn, arg) => ar.call(fn, Value(ar, arg))
    case Group(inner, k) => ApplyPercents(ar, Value(ar, inner), k)
    case Sign(minus, operand) => if minus then ar.negate(Value(ar, operand)) else Value(ar, operand)
    case Power(base, exponent) => ar.pow(Value(ar, base), Value(ar, exponent))
    case Binary(op, left, right) => Apply(ar, op, Value(ar, left), Value(ar, right))
  }

  lemma {:induction false} LooserLevel(e: Expr, tight: Level, loose: Level)
    requires Grammatical(e, tight) && Tightness(loose) <= Tightness(tight)
    ensures Grammatical(e, loose)
  {
  }
}
