/**
 The recursive-descent evaluator of the Pulse calculator. It computes a number and never builds a tree;
 the functions Read* say which derivation it follows, and the lemmas below them prove that it accepts
 exactly the token lists of CalculatorGrammar and returns the value of their one derivation.
 */
module CalculatorParser {
  import opened Prelude
  import opened CalculatorGrammar

  predicate StartsWith(ts: seq<Token>, c: char) {
    |ts| > 0 && ts[0] == Symbol(c)
  }

  /** The number of percent signs ts starts with. */
  function PercentRun(ts: seq<Token>): (k: nat)
    ensures k <= |ts|
  {
    if StartsWith(ts, '%') then 1 + PercentRun(ts[1..]) else 0
  }

  type Reading = Option<(Expr, seq<Token>)>

  function ReadPrimary(ts: seq<Token>): (r: Reading)
    ensures r.Some? ==> |r.value.1| < |ts|
    decreases |ts|, 1
  {
    if ts == [] then
      None
    else
      match ts[0]
      case Numeral(text) =>
        var k := PercentRun(ts[1..]);
        Some((Number(text, k), ts[1..][k..]))
      case Word(name) =>
        if name in CONSTANTS then
          Some((Constant(name), ts[1..]))
        else
          var (arg, rest) :- ReadEnclosed(ts[1..]);
          if name in FUNCTIONS then Some((Call(name, arg), rest)) else None
      case Symbol(_) =>
        var (inner, rest) :- ReadEnclosed(ts);
        var k := PercentRun(rest);
        Some((Group(inner, k), rest[k..]))
  }

  /** An expression between parentheses. */
  function ReadEnclosed(ts: seq<Token>): (r: Reading)
    ensures r.Some? ==> |r.value.1| < |ts|
    decreases |ts|, 0
  {
    if StartsWith(ts, '(') then
      var (inner, rest) :- ReadSum(ts[1..]);
      if StartsWith(rest, ')') then Some((inner, rest[1..])) else None
    else
      None
  }

  function ReadSigned(ts: seq<Token>): (r: Reading)
    ensures r.Some? ==> |r.value.1| < |ts|
    decreases |ts|, 2
  {
    if StartsWith(ts, '+') || StartsWith(ts, '-') then
      var (e, rest) :- ReadSigned(ts[1..]);
      Some((Sign(StartsWith(ts, '-'), e), rest))
    else
      ReadPrimary(ts)
  }

  function ReadPower(ts: seq<Token>): (r: Reading)
    ensures r.Some? ==> |r.value.1| < |ts|
    decreases |ts|, 3
  {
    var (base, rest) :- ReadSigned(ts);
    if StartsWith(rest, '^') then
      var (exponent, rest') :- ReadPower(rest[1..]);
      Some((Power(base, exponent), rest'))
    else
      Some((base, rest))
  }

  function ProductOperator(ts: seq<Token>): Option<Operator> {
    if StartsWith(ts, '*') then Some(Times)
    else if StartsWith(ts, '/') then Some(Over)
    else if StartsWith(ts, '%') then Some(Modulo)
    else None
  }

  function SumOperator(ts: seq<Token>): Option<Operator> {
    if StartsWith(ts, '+') then Some(Plus)
    else if StartsWith(ts, '-') then Some(Minus)
    else None
  }

  /** The loop of parseTerm, with acc read so far. */
  function ReadProductTail(acc: Expr, ts: seq<Token>): (r: Reading)
    ensures r.Some? ==> |r.value.1| <= |ts|
    decreases |ts|, 4
  {
    var op := ProductOperator(ts);
    if op.None? then
      Some((acc, ts))
    else
      var (right, rest) :- ReadPower(ts[1..]);
      ReadProductTail(Binary(op.value, acc, right), rest)
  }

  function ReadProduct(ts: seq<Token>): (r: Reading)
    ensures r.Some? ==> |r.value.1| < |ts|
    decreases |ts|, 5
  {
    var (e, rest) :- ReadPower(ts);
    ReadProductTail(e, rest)
  }

  /** The loop of parseExpression, with acc read so far. */
  function ReadSumTail(acc: Expr, ts: seq<Token>): (r: Reading)
    ensures r.Some? ==> |r.value.1| <= |ts|
    decreases |ts|, 6
  {
    var op := SumOperator(ts);
    if op.None? then
      Some((acc, ts))
    else
      var (right, rest) :- ReadProduct(ts[1..]);
      ReadSumTail(Binary(op.value, acc, right), rest)
  }

  function ReadSum(ts: seq<Token>): (r: Reading)
    ensures r.Some? ==> |r.value.1| < |ts|
    decreases |ts|, 7
  {
    var (e, rest) :- ReadProduct(ts);
    ReadSumTail(e, rest)
  }

  // ---------- the text of a tree, in front of more text ----------

  function PercentsThen(k: nat, rest: seq<Token>): seq<Token> {
    if k == 0 then rest else [Symbol('%')] + PercentsThen(k - 1, rest)
  }

  function Then(e: Expr, rest: seq<Token>): seq<Token> {
    match e
    case Number(text, k) => [Numeral(text)] + PercentsThen(k, rest)
    case Constant(name) => [Word(name)] + rest
    case Call(fn, arg) => [Word(fn)] + ([Symbol('(')] + Then(arg, [Symbol(')')] + rest))
    case Group(inner, k) => [Symbol('(')] + Then(inner, [Symbol(')')] + PercentsThen(k, rest))
    case Sign(minus, operand) => [Symbol(if minus then '-' else '+')] + Then(operand, rest)
    case Power(base, exponent) => Then(base, [Symbol('^')] + Then(exponent, rest))
    case Binary(op, left, right) => Then(left, [Symbol(OperatorChar(op))] + Then(right, rest))
  }

  lemma {:induction false} PercentsThenIsConcatenation(k: nat, rest: seq<Token>)
    ensures PercentsThen(k, rest) == Percents(k) + rest
  {
    if k > 0 {
      PercentsThenIsConcatenation(k - 1, rest);
      assert Percents(k) == [Symbol('%')] + Percents(k - 1);
    } else {
      assert Percents(0) + rest == rest;
    }
  }

  lemma {:induction false} ThenIsConcatenation(e: Expr, rest: seq<Token>)
    ensures Then(e, rest) == Yield(e) + rest
  {
    match e
    case Number(_, k) =>
      PercentsThenIsConcatenation(k, rest);
    case Constant(_) =>
    case Call(_, arg) =>
      ThenIsConcatenation(arg, [Symbol(')')] + rest);
    case Group(inner, k) =>
      PercentsThenIsConcatenation(k, rest);
      ThenIsConcatenation(inner, [Symbol(')')] + PercentsThen(k, rest));
    case Sign(_, operand) =>
      ThenIsConcatenation(operand, rest);
    case Power(base, exponent) =>
      ThenIsConcatenation(exponent, rest);
      ThenIsConcatenation(base, [Symbol('^')] + Then(exponent, rest));
    case Binary(op, left, right) =>
      ThenIsConcatenation(right, rest);
      ThenIsConcatenation(left, [Symbol(OperatorChar(op))] + Then(right, rest));
  }

  // ---------- soundness ----------

  /** What a successful reading promises: an admitted tree for a prefix, with every percent sign it could take. */
  ghost predicate Sound(ts: seq<Token>, l: Level, r: Reading) {
    r.Some? ==>
      && Grammatical(r.value.0, l)
      && ts == Then(r.value.0, r.value.1)
      && (TakesPercent(r.value.0) ==> !StartsWith(r.value.1, '%'))
  }

  lemma {:induction false} PercentRunSound(ts: seq<Token>)
    ensures ts == PercentsThen(PercentRun(ts), ts[PercentRun(ts)..])
    ensures !StartsWith(ts[PercentRun(ts)..], '%')
  {
    if StartsWith(ts, '%') {
      PercentRunSound(ts[1..]);
      assert ts[PercentRun(ts)..] == ts[1..][PercentRun(ts[1..])..];
    }
  }

  lemma {:induction false} EnclosedSound(ts: seq<Token>)
    ensures ReadEnclosed(ts).Some? ==>
              var (inner, rest) := ReadEnclosed(ts).value;
              Grammatical(inner, Sum) && ts == [Symbol('(')] + Then(inner, [Symbol(')')] + rest)
    decreases |ts|, 0
  {
    if ReadEnclosed(ts).Some? {
      SumSound(ts[1..]);
      var (inner, rest) := ReadSum(ts[1..]).value;
      assert rest == [Symbol(')')] + rest[1..];
      assert ts == [ts[0]] + ts[1..];
    }
  }

  lemma {:induction false} PrimarySound(ts: seq<Token>)
    ensures Sound(ts, Primary, ReadPrimary(ts))
    decreases |ts|, 1
  {
    if ReadPrimary(ts).Some? {
      match ts[0]
      case Numeral(_) =>
        PercentRunSound(ts[1..]);
      case Word(name) =>
        if name !in CONSTANTS {
          EnclosedSound(ts[1..]);
          assert ts == [ts[0]] + ts[1..];
        }
      case Symbol(_) =>
        EnclosedSound(ts);
        PercentRunSound(ReadEnclosed(ts).value.1);
    }
  }

  lemma {:induction false} SignedSound(ts: seq<Token>)
    ensures Sound(ts, Signed, ReadSigned(ts))
    decreases |ts|, 2
  {
    if StartsWith(ts, '+') || StartsWith(ts, '-') {
      SignedSound(ts[1..]);
      assert ts == [ts[0]] + ts[1..];
    } else {
      PrimarySound(ts);
      if ReadPrimary(ts).Some? {
        LooserLevel(ReadPrimary(ts).value.0, Primary, Signed);
      }
    }
  }

  lemma {:induction false} PowerSound(ts: seq<Token>)
    ensures Sound(ts, Exponential, ReadPower(ts))
    decreases |ts|, 3
  {
    SignedSound(ts);
    if ReadSigned(ts).Some? {
      var (base, rest) := ReadSigned(ts).value;
      LooserLevel(base, Signed, Exponential);
      if StartsWith(rest, '^') {
        PowerSound(rest[1..]);
        assert rest == [rest[0]] + rest[1..];
      }
    }
  }

  lemma {:induction false} ProductTailSound(acc: Expr, ts: seq<Token>)
    requires Grammatical(acc, Product) && (TakesPercent(acc) ==> !StartsWith(ts, '%'))
    ensures Sound(Then(acc, ts), Product, ReadProductTail(acc, ts))
    decreases |ts|, 4
  {
    if ProductOperator(ts).Some? && ReadPower(ts[1..]).Some? {
      PowerSound(ts[1..]);
      var (right, rest) := ReadPower(ts[1..]).value;
      assert ts == [ts[0]] + ts[1..];
      ProductTailSound(Binary(ProductOperator(ts).value, acc, right), rest);
    }
  }

  lemma {:induction false} ProductSound(ts: seq<Token>)
    ensures Sound(ts, Product, ReadProduct(ts))
    decreases |ts|, 5
  {
    PowerSound(ts);
    if ReadPower(ts).Some? {
      var (e, rest) := ReadPower(ts).value;
      LooserLevel(e, Exponential, Product);
      ProductTailSound(e, rest);
    }
  }

  lemma {:induction false} SumTailSound(acc: Expr, ts: seq<Token>)
    requires Grammatical(acc, Sum) && (TakesPercent(acc) ==> !StartsWith(ts, '%'))
    ensures Sound(Then(acc, ts), Sum, ReadSumTail(acc, ts))
    decreases |ts|, 6
  {
    if SumOperator(ts).Some? && ReadProduct(ts[1..]).Some? {
      ProductSound(ts[1..]);
      var (right, rest) := ReadProduct(ts[1..]).value;
      assert ts == [ts[0]] + ts[1..];
      SumTailSound(Binary(SumOperator(ts).value, acc, right), rest);
    }
  }

  lemma {:induction false} SumSound(ts: seq<Token>)
    ensures Sound(ts, Sum, ReadSum(ts))
    decreases |ts|, 7
  {
    ProductSound(ts);
    if ReadProduct(ts).Some? {
      var (e, rest) := ReadProduct(ts).value;
      LooserLevel(e, Product, Sum);
      SumTailSound(e, rest);
    }
  }

  // ---------- completeness ----------

  /** What must not follow the text of e, read at level l, for the reader to stop there. */
  predicate Stops(e: Expr, l: Level, rest: seq<Token>) {
    && (TakesPercent(e) ==> !StartsWith(rest, '%'))
    && (Tightness(l) <= 2 ==> !StartsWith(rest, '^'))
  }

  lemma {:induction false} PercentRunExact(k: nat, rest: seq<Token>)
    requires !StartsWith(rest, '%')
    ensures PercentRun(PercentsThen(k, rest)) == k
    ensures PercentsThen(k, rest)[PercentRun(PercentsThen(k, rest))..] == rest
  {
    if k > 0 {
      PercentRunExact(k - 1, rest);
      assert PercentsThen(k, rest)[1..] == PercentsThen(k - 1, rest);
    }
  }

  lemma {:induction false} EnclosedIsRead(inner: Expr, rest: seq<Token>)
    requires Grammatical(inner, Sum)
    ensures ReadEnclosed([Symbol('(')] + Then(inner, [Symbol(')')] + rest)) == Some((inner, rest))
    decreases inner, 6
  {
    var after := [Symbol(')')] + rest;
    assert ([Symbol('(')] + Then(inner, after))[1..] == Then(inner, after);
    SumIsRead(inner, after);
    assert after[1..] == rest;
  }

  lemma {:induction false} PrimaryIsRead(e: Expr, rest: seq<Token>)
    requires Grammatical(e, Primary) && Stops(e, Primary, rest)
    ensures ReadPrimary(Then(e, rest)) == Some((e, rest))
    decreases e, 0
  {
    var ts := Then(e, rest);
    match e
    case Number(_, k) =>
      assert ts[1..] == PercentsThen(k, rest);
      PercentRunExact(k, rest);
    case Constant(_) =>
      assert ts[1..] == rest;
    case Call(_, arg) =>
      assert ts[1..] == [Symbol('(')] + Then(arg, [Symbol(')')] + rest);
      EnclosedIsRead(arg, rest);
    case Group(inner, k) =>
      EnclosedIsRead(inner, PercentsThen(k, rest));
      PercentRunExact(k, rest);
    case Binary(_, _, _) =>
  }

  lemma {:induction false} SignedIsRead(e: Expr, rest: seq<Token>)
    requires Grammatical(e, Signed) && Stops(e, Signed, rest)
    ensures ReadSigned(Then(e, rest)) == Some((e, rest))
    decreases e, 1
  {
    if e.Sign? {
      assert Then(e, rest)[1..] == Then(e.operand, rest);
      SignedIsRead(e.operand, rest);
    } else {
      PrimaryIsRead(e, rest);
    }
  }

  lemma {:induction false} PowerIsRead(e: Expr, rest: seq<Token>)
    requires Grammatical(e, Exponential) && Stops(e, Exponential, rest)
    ensures ReadPower(Then(e, rest)) == Some((e, rest))
    decreases e, 2
  {
    if e.Power? {
      var after := [Symbol('^')] + Then(e.exponent, rest);
      SignedIsRead(e.base, after);
      assert after[1..] == Then(e.exponent, rest);
      PowerIsRead(e.exponent, rest);
    } else {
      SignedIsRead(e, rest);
    }
  }

  /** Reading the text of a product brings the loop of parseTerm to that product, whatever follows. */
  lemma {:induction false} ProductIsReached(e: Expr, rest: seq<Token>)
    requires Grammatical(e, Product) && Stops(e, Product, rest)
    ensures ReadProduct(Then(e, rest)) == ReadProductTail(e, rest)
    decreases e, 3
  {
    if e.Binary? {
      var after := [Symbol(OperatorChar(e.op))] + Then(e.right, rest);
      ProductIsReached(e.left, after);
      assert after[1..] == Then(e.right, rest);
      PowerIsRead(e.right, rest);
    } else {
      PowerIsRead(e, rest);
    }
  }

  lemma {:induction false} SumIsReached(e: Expr, rest: seq<Token>)
    requires Grammatical(e, Sum) && Stops(e, Sum, rest) && ProductOperator(rest).None?
    ensures ReadSum(Then(e, rest)) == ReadSumTail(e, rest)
    decreases e, 4
  {
    if e.Binary? && IsAdditive(e.op) {
      var after := [Symbol(OperatorChar(e.op))] + Then(e.right, rest);
      SumIsReached(e.left, after);
      assert after[1..] == Then(e.right, rest);
      ProductIsReached(e.right, rest);
    } else {
      ProductIsReached(e, rest);
    }
  }

  lemma {:induction false} SumIsRead(e: Expr, rest: seq<Token>)
    requires Grammatical(e, Sum) && Stops(e, Sum, rest)
    requires ProductOperator(rest).None? && SumOperator(rest).None?
    ensures ReadSum(Then(e, rest)) == Some((e, rest))
    decreases e, 5
  {
    SumIsReached(e, rest);
  }

  // ---------- main results about the derivation followed ----------

  /** The whole token list is one expression. */
  function Derivation(ts: seq<Token>): Option<Expr> {
    var (e, rest) :- ReadSum(ts);
    if rest == [] then Some(e) else None
  }

  /** Sound and complete: a tree is the derivation found exactly when the grammar gives it to these tokens. */
  lemma DerivationExact(ts: seq<Token>, e: Expr)
    ensures Derivation(ts) == Some(e) <==> Grammatical(e, Sum) && Yield(e) == ts
  {
    SumSound(ts);
    ThenIsConcatenation(e, []);
    assert Yield(e) + [] == Yield(e);
    if Grammatical(e, Sum) && Yield(e) == ts {
      SumIsRead(e, []);
    }
  }

  /** The grammar is unambiguous. */
  lemma Unambiguous(e: Expr, e': Expr)
    ensures Grammatical(e, Sum) && Grammatical(e', Sum) && Yield(e) == Yield(e') ==> e == e'
  {
    DerivationExact(Yield(e), e);
    DerivationExact(Yield(e), e');
  }

  /** The calculator's answer for a token list: none if the list is not an expression or the value is not finite. */
  function Answer<N>(ar: Arithmetic<N>, ts: seq<Token>): Option<N> {
    var e :- Derivation(ts);
    if ar.isFinite(Value(ar, e)) then Some(Value(ar, e)) else None
  }

  /** The tokens are answered exactly when the grammar derives them with a finite value, and that value is the answer. */
  lemma AnswerExact<N>(ar: Arithmetic<N>, ts: seq<Token>)
    ensures Answer(ar, ts).Some? <==> exists e :: Grammatical(e, Sum) && Yield(e) == ts && ar.isFinite(Value(ar, e))
    ensures forall e :: Grammatical(e, Sum) && Yield(e) == ts && ar.isFinite(Value(ar, e)) ==> Answer(ar, ts) == Some(Value(ar, e))
  {
    forall e | Grammatical(e, Sum) && Yield(e) == ts
      ensures Derivation(ts) == Some(e)
    {
      DerivationExact(ts, e);
    }
    if Derivation(ts).Some? {
      DerivationExact(ts, Derivation(ts).value);
    }
  }

  // ---------- the evaluator ----------

  lemma BinaryValue<N>(ar: Arithmetic<N>, op: Operator, left: Expr, right: Expr)
    ensures Value(ar, Binary(op, left, right)) == Apply(ar, op, Value(ar, left), Value(ar, right))
  {
  }

  class Parser<N> {
    const tokens: seq<Token>
    const ar: Arithmetic<N>
    var pos: nat

    constructor (tokens: seq<Token>, ar: Arithmetic<N>)
      ensures this.tokens == tokens && this.ar == ar && pos == 0
    {
      this.tokens, this.ar, pos := tokens, ar, 0;
    }

    ghost predicate Valid()
      reads this
    {
      pos <= |tokens|
    }

    function Rest(): seq<Token>
      requires Valid()
      reads this
    {
      tokens[pos..]
    }

    predicate Peek(c: char)
      requires Valid()
      reads this
    {
      pos < |tokens| && tokens[pos] == Symbol(c)
    }

    /** The evaluator's result and cursor are those of the reading; a thrown error is None. */
    ghost predicate Follows(r: Option<N>, reading: Reading)
      reads this
    {
      && Valid()
      && match reading
         case None => r == None
         case Some((e, rest)) => r == Some(Value(ar, e)) && Rest() == rest
    }

    method TakePercents(v: N) returns (r: N)
      requires Valid()
      modifies this
      ensures Valid()
      ensures Rest() == old(Rest())[PercentRun(old(Rest()))..]
      ensures r == ApplyPercents(ar, v, PercentRun(old(Rest())))
    {
      r := v;
      ghost var k := 0;
      while Peek('%')
        invariant Valid() && pos == old(pos) + k
        invariant r == ApplyPercents(ar, v, k)
        invariant PercentRun(old(Rest())) == k + PercentRun(Rest())
        decreases |tokens| - pos
      {
        assert Rest()[1..] == tokens[pos + 1..];
        pos := pos + 1;
        r := ar.div(r, ar.hundred);
        k := k + 1;
      }
    }

    method ParseEnclosed() returns (r: Option<N>)
      requires Valid()
      modifies this
      ensures Follows(r, ReadEnclosed(old(Rest())))
      decreases |tokens| - pos, 0
    {
      if !Peek('(') {
        return None;
      }
      assert tokens[pos + 1..] == Rest()[1..];
      pos := pos + 1;
      r := ParseExpression();
      if r.None? || !Peek(')') {
        return None;
      }
      assert tokens[pos + 1..] == Rest()[1..];
      pos := pos + 1;
    }

    method ParsePrimary() returns (r: Option<N>)
      requires Valid()
      modifies this
      ensures Follows(r, ReadPrimary(old(Rest())))
      decreases |tokens| - pos, 1
    {
      if pos == |tokens| {
        return None;
      }
      assert tokens[pos + 1..] == Rest()[1..];
      match tokens[pos] {
        case Numeral(text) =>
          pos := pos + 1;
          var v := TakePercents(ar.literal(text));
          r := Some(v);
        case Word(name) =>
          pos := pos + 1;
          if name in CONSTANTS {
            return Some(ConstantValue(ar, name));
          }
          r := ParseEnclosed();
          if r.None? || name !in FUNCTIONS {
            return None;
          }
          r := Some(ar.call(name, r.value));
        case Symbol(_) =>
          r := ParseEnclosed();
          if r.None? {
            return;
          }
          var v := TakePercents(r.value);
          r := Some(v);
      }
    }

    method ParseUnary() returns (r: Option<N>)
      requires Valid()
      modifies this
      ensures Follows(r, ReadSigned(old(Rest())))
      decreases |tokens| - pos, 2
    {
      if Peek('+') || Peek('-') {
        var minus := Peek('-');
        assert tokens[pos + 1..] == Rest()[1..];
        pos := pos + 1;
        r := ParseUnary();
        if r.Some? && minus {
          r := Some(ar.negate(r.value));
        }
      } else {
        r := ParsePrimary();
      }
    }

    method ParsePower() returns (r: Option<N>)
      requires Valid()
      modifies this
      ensures Follows(r, ReadPower(old(Rest())))
      decreases |tokens| - pos, 3
    {
      r := ParseUnary();
      if r.Some? && Peek('^') {
        assert tokens[pos + 1..] == Rest()[1..];
        pos := pos + 1;
        var exponent := ParsePower();
        if exponent.None? {
          return None;
        }
        r := Some(ar.pow(r.value, exponent.value));
      }
    }

    method ParseTerm() returns (r: Option<N>)
      requires Valid()
      modifies this
      ensures Follows(r, ReadProduct(old(Rest())))
      decreases |tokens| - pos, 5
    {
      hide Value, Apply;
      ghost var reading := ReadProduct(Rest());
      ghost var first := ReadPower(Rest());
      r := ParsePower();
      if r.None? {
        return;
      }
      ghost var acc := first.value.0;
      while Peek('*') || Peek('/') || Peek('%')
        invariant Valid() && r == Some(Value(ar, acc))
        invariant pos > old(pos)
        invariant reading == ReadProductTail(acc, Rest())
        decreases |tokens| - pos
      {
        ghost var ts := Rest();
        var op := if Peek('*') then Times else if Peek('/') then Over else Modulo;
        assert tokens[pos + 1..] == ts[1..];
        pos := pos + 1;
        ghost var step := ReadPower(ts[1..]);
        var rhs := ParsePower();
        if rhs.None? {
          return None;
        }
        r := Some(Apply(ar, op, r.value, rhs.value));
        BinaryValue(ar, op, acc, step.value.0);
        acc := Binary(op, acc, step.value.0);
      }
    }

    method ParseExpression() returns (r: Option<N>)
      requires Valid()
      modifies this
      ensures Follows(r, ReadSum(old(Rest())))
      decreases |tokens| - pos, 7
    {
      hide Value, Apply;
      ghost var reading := ReadSum(Rest());
      ghost var first := ReadProduct(Rest());
      r := ParseTerm();
      if r.None? {
        return;
      }
      ghost var acc := first.value.0;
      while Peek('+') || Peek('-')
        invariant Valid() && r == Some(Value(ar, acc))
        invariant pos > old(pos)
        invariant reading == ReadSumTail(acc, Rest())
        decreases |tokens| - pos
      {
        ghost var ts := Rest();
        var op := if Peek('+') then Plus else Minus;
        assert tokens[pos + 1..] == ts[1..];
        pos := pos + 1;
        ghost var step := ReadProduct(ts[1..]);
        var rhs := ParseTerm();
        if rhs.None? {
          return None;
        }
        r := Some(Apply(ar, op, r.value, rhs.value));
        BinaryValue(ar, op, acc, step.value.0);
        acc := Binary(op, acc, step.value.0);
      }
    }
  }

  /** The evaluator itself, on a token list. */
  method EvaluateTokens<N>(ar: Arithmetic<N>, tokens: seq<Token>) returns (r: Option<N>)
    ensures r == Answer(ar, tokens)
  {
    var p := new Parser(tokens, ar);
    assert tokens[0..] == tokens;
    var v := p.ParseExpression();
    if v.None? || p.pos != |tokens| || !ar.isFinite(v.value) {
      return None;
    }
    return v;
  }
}
