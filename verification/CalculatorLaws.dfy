/**
 What the calculator's grammar, values and tokens mean, stated without the functions that define them: how operators
 group, what examples evaluate to, and which texts are numbers, words and token lists.
 */
module CalculatorLaws {
  import opened Prelude
  import opened CalculatorGrammar
  import opened CalculatorParser
  import opened CalculatorLexer

  // ---------- how operators group ----------

  function Infix(op: Operator): seq<Token> {
    [Symbol(OperatorChar(op))]
  }

  /** Powers group to the right, and a sign binds tighter than a power. */
  lemma PowersGroup(a: Expr, b: Expr, c: Expr)
    requires Grammatical(a, Signed) && Grammatical(b, Signed) && Grammatical(c, Exponential)
    ensures Derivation(Yield(a) + [Symbol('^')] + Yield(b) + [Symbol('^')] + Yield(c)) == Some(Power(a, Power(b, c)))
    ensures Derivation([Symbol('-')] + Yield(a) + [Symbol('^')] + Yield(c)) == Some(Power(Sign(true, a), c))
  {
    hide Grammatical, Derivation;
    PowersFit(a, b, c);
    Associates(Yield(a) + [Symbol('^')], Yield(b), [Symbol('^')], Yield(c));
    Grouped(Power(a, Power(b, c)), Yield(a) + [Symbol('^')] + Yield(b) + [Symbol('^')] + Yield(c));
    Grouped(Power(Sign(true, a), c), [Symbol('-')] + Yield(a) + [Symbol('^')] + Yield(c));
  }

  lemma PowersFit(a: Expr, b: Expr, c: Expr)
    requires Grammatical(a, Signed) && Grammatical(b, Signed) && Grammatical(c, Exponential)
    ensures var right := Power(a, Power(b, c));
            Grammatical(right, Sum) && Yield(right) == Yield(a) + [Symbol('^')] + (Yield(b) + [Symbol('^')] + Yield(c))
    ensures var sign := Power(Sign(true, a), c);
            Grammatical(sign, Sum) && Yield(sign) == [Symbol('-')] + Yield(a) + [Symbol('^')] + Yield(c)
  {
  }

  /** Sums and differences group to the left, as do products and quotients, which bind tighter; powers bind tightest. */
  lemma OperatorsGroup(a: Expr, b: Expr, c: Expr, sum: Operator, sum': Operator, product: Operator, product': Operator)
    requires Grammatical(a, Exponential) && Grammatical(b, Signed) && Grammatical(c, Exponential)
    requires sum in {Plus, Minus} && sum' in {Plus, Minus} && product in {Times, Over} && product' in {Times, Over}
    ensures Derivation(Yield(a) + Infix(sum) + Yield(b) + Infix(sum') + Yield(c)) == Some(Binary(sum', Binary(sum, a, b), c))
    ensures Derivation(Yield(a) + Infix(product) + Yield(b) + Infix(product') + Yield(c))
         == Some(Binary(product', Binary(product, a, b), c))
    ensures Derivation(Yield(a) + Infix(sum) + Yield(b) + Infix(product) + Yield(c)) == Some(Binary(sum, a, Binary(product, b, c)))
    ensures Derivation(Yield(a) + Infix(product) + Yield(b) + Infix(sum) + Yield(c)) == Some(Binary(sum, Binary(product, a, b), c))
    ensures Derivation(Yield(a) + Infix(product) + Yield(b) + [Symbol('^')] + Yield(c))
         == Some(Binary(product, a, Power(b, c)))
  {
    LooserOperands(a, b, c);
    Grouped(Binary(sum', Binary(sum, a, b), c), Yield(a) + Infix(sum) + Yield(b) + Infix(sum') + Yield(c));
    Grouped(Binary(product', Binary(product, a, b), c), Yield(a) + Infix(product) + Yield(b) + Infix(product') + Yield(c));
    Grouped(Binary(sum, Binary(product, a, b), c), Yield(a) + Infix(product) + Yield(b) + Infix(sum) + Yield(c));
    GroupedRight(a, b, c, sum, product);
    PoweredRight(a, b, c, product);
  }

  lemma LooserOperands(a: Expr, b: Expr, c: Expr)
    requires Grammatical(a, Exponential) && Grammatical(b, Signed) && Grammatical(c, Exponential)
    ensures Grammatical(a, Product) && Grammatical(a, Sum) && Grammatical(b, Exponential) && Grammatical(b, Product)
    ensures Grammatical(c, Product)
  {
    LooserLevel(a, Exponential, Product);
    LooserLevel(a, Exponential, Sum);
    LooserLevel(b, Signed, Exponential);
    LooserLevel(b, Signed, Product);
    LooserLevel(c, Exponential, Product);
  }

  lemma Grouped(e: Expr, ts: seq<Token>)
    requires Grammatical(e, Sum) && Yield(e) == ts
    ensures Derivation(ts) == Some(e)
  {
    DerivationExact(ts, e);
  }

  lemma GroupedRight(a: Expr, b: Expr, c: Expr, sum: Operator, product: Operator)
    requires Grammatical(a, Sum) && Grammatical(b, Product) && Grammatical(c, Exponential)
    requires sum in {Plus, Minus} && product in {Times, Over}
    ensures Derivation(Yield(a) + Infix(sum) + Yield(b) + Infix(product) + Yield(c)) == Some(Binary(sum, a, Binary(product, b, c)))
  {
    hide Grammatical, Derivation;
    var e := Binary(sum, a, Binary(product, b, c));
    GroupedRightFits(a, b, c, sum, product);
    Associates(Yield(a) + Infix(sum), Yield(b), Infix(product), Yield(c));
    Grouped(e, Yield(e));
  }

  lemma GroupedRightFits(a: Expr, b: Expr, c: Expr, sum: Operator, product: Operator)
    requires Grammatical(a, Sum) && Grammatical(b, Product) && Grammatical(c, Exponential)
    requires sum in {Plus, Minus} && product in {Times, Over}
    ensures var e := Binary(sum, a, Binary(product, b, c));
            Grammatical(e, Sum) && Yield(e) == Yield(a) + Infix(sum) + (Yield(b) + Infix(product) + Yield(c))
  {
  }

  lemma PoweredRight(a: Expr, b: Expr, c: Expr, product: Operator)
    requires Grammatical(a, Product) && Grammatical(b, Signed) && Grammatical(c, Exponential) && product in {Times, Over}
    ensures Derivation(Yield(a) + Infix(product) + Yield(b) + [Symbol('^')] + Yield(c))
         == Some(Binary(product, a, Power(b, c)))
  {
    hide Grammatical, Derivation;
    var e := Binary(product, a, Power(b, c));
    PoweredRightFits(a, b, c, product);
    Associates(Yield(a) + Infix(product), Yield(b), [Symbol('^')], Yield(c));
    Grouped(e, Yield(e));
  }

  lemma PoweredRightFits(a: Expr, b: Expr, c: Expr, product: Operator)
    requires Grammatical(a, Product) && Grammatical(b, Signed) && Grammatical(c, Exponential) && product in {Times, Over}
    ensures var e := Binary(product, a, Power(b, c));
            Grammatical(e, Sum) && Yield(e) == Yield(a) + Infix(product) + (Yield(b) + [Symbol('^')] + Yield(c))
  {
  }

  lemma Associates(a: seq<Token>, b: seq<Token>, op: seq<Token>, c: seq<Token>)
    ensures a + (b + op + c) == a + b + op + c
  {
  }

  // ---------- what trees are worth ----------

  function PowerOf(x: real, n: nat): real {
    if n == 0 then 1.0 else x * PowerOf(x, n - 1)
  }

  /** Whole numbers below ten, with arithmetic on them; tau is 6 and sqrt knows the root of 9. */
  function Whole(): Arithmetic<real> {
    Arithmetic(
      (s: string) => if |s| == 1 && IsDigit(s[0]) then (s[0] as int - 48) as real else 0.0,
      (x: real, y: real) => x + y, (x: real, y: real) => x - y, (x: real, y: real) => x * y,
      (x: real, y: real) => if y == 0.0 then 0.0 else x / y,
      (x: real, y: real) => if y == 0.0 then 0.0 else x - (x / y).Floor as real * y,
      (x: real, y: real) => if y < 0.0 then 0.0 else PowerOf(x, y.Floor),
      (x: real) => -x, 100.0, 3.0, 2.5, 6.0,
      (fn: string, x: real) => if fn == "sqrt" && x == 9.0 then 3.0 else 0.0,
      _ => true)
  }

  function Digit(c: char): Expr {
    Number([c], 0)
  }

  lemma DigitMeans(c: char)
    requires IsDigit(c)
    ensures Value(Whole(), Digit(c)) == (c as int - 48) as real && Yield(Digit(c)) == [Numeral([c])]
    ensures Grammatical(Digit(c), Signed) && Grammatical(Digit(c), Exponential)
  {
    assert Percents(0) == [];
  }

  lemma Answered(ts: seq<Token>, e: Expr, v: real)
    requires Derivation(ts) == Some(e) && Value(Whole(), e) == v
    ensures Answer(Whole(), ts) == Some(v)
  {
    hide Derivation, Value;
  }

  /** 7-2-1 is 4, 8/4/2 is 1, 7-2*3 is 1. */
  lemma ExampleSums()
    ensures Answer(Whole(), [Numeral("7"), Symbol('-'), Numeral("2"), Symbol('-'), Numeral("1")]) == Some(4.0)
    ensures Answer(Whole(), [Numeral("8"), Symbol('/'), Numeral("4"), Symbol('/'), Numeral("2")]) == Some(1.0)
    ensures Answer(Whole(), [Numeral("7"), Symbol('-'), Numeral("2"), Symbol('*'), Numeral("3")]) == Some(1.0)
  {
    hide Derivation, Yield, Grammatical, Answer, Whole, Value;
    SumOfDigits('7', Minus, '2', Minus, '1');
    SumOfDigits('8', Over, '4', Over, '2');
    SumOfDigits('7', Minus, '2', Times, '3');
    DifferenceValue();
    QuotientValue();
    MixedValue();
    Answered([Numeral("7"), Symbol('-'), Numeral("2"), Symbol('-'), Numeral("1")],
             Binary(Minus, Binary(Minus, Digit('7'), Digit('2')), Digit('1')), 4.0);
    Answered([Numeral("8"), Symbol('/'), Numeral("4"), Symbol('/'), Numeral("2")],
             Binary(Over, Binary(Over, Digit('8'), Digit('4')), Digit('2')), 1.0);
    Answered([Numeral("7"), Symbol('-'), Numeral("2"), Symbol('*'), Numeral("3")],
             Binary(Minus, Digit('7'), Binary(Times, Digit('2'), Digit('3'))), 1.0);
  }

  lemma SumOfDigits(a: char, op: Operator, b: char, op': Operator, c: char)
    requires IsDigit(a) && IsDigit(b) && IsDigit(c) && op in {Minus, Over} && op' in {Minus, Over, Times}
    requires op.Over? <==> op'.Over?
    ensures Derivation([Numeral([a]), Symbol(OperatorChar(op)), Numeral([b]), Symbol(OperatorChar(op')), Numeral([c])])
         == Some(if op.Over? || op'.Minus? then Binary(op', Binary(op, Digit(a), Digit(b)), Digit(c))
                 else Binary(op, Digit(a), Binary(op', Digit(b), Digit(c))))
  {
    hide Derivation, Yield, Grammatical;
    DigitMeans(a);
    DigitMeans(b);
    DigitMeans(c);
    var ts := [Numeral([a]), Symbol(OperatorChar(op)), Numeral([b]), Symbol(OperatorChar(op')), Numeral([c])];
    OperatorsGroup(Digit(a), Digit(b), Digit(c), Minus, Minus, Over, Over);
    OperatorsGroup(Digit(a), Digit(b), Digit(c), Minus, Minus, if op'.Times? then Times else Over, Over);
    assert ts == Yield(Digit(a)) + Infix(op) + Yield(Digit(b)) + Infix(op') + Yield(Digit(c));
  }

  lemma DifferenceValue()
    ensures Value(Whole(), Binary(Minus, Binary(Minus, Digit('7'), Digit('2')), Digit('1'))) == 4.0
  {
    DigitMeans('7');
    DigitMeans('2');
    DigitMeans('1');
  }

  lemma QuotientValue()
    ensures Value(Whole(), Binary(Over, Binary(Over, Digit('8'), Digit('4')), Digit('2'))) == 1.0
  {
    DigitMeans('8');
    DigitMeans('4');
    DigitMeans('2');
  }

  lemma MixedValue()
    ensures Value(Whole(), Binary(Minus, Digit('7'), Binary(Times, Digit('2'), Digit('3')))) == 1.0
  {
    DigitMeans('7');
    DigitMeans('2');
    DigitMeans('3');
  }

  /** 2^3^2 is 512, and -2^2 is 4. */
  lemma ExamplePowers()
    ensures Answer(Whole(), [Numeral("2"), Symbol('^'), Numeral("3"), Symbol('^'), Numeral("2")]) == Some(512.0)
    ensures Answer(Whole(), [Symbol('-'), Numeral("2"), Symbol('^'), Numeral("2")]) == Some(4.0)
  {
    hide Derivation, Yield, Grammatical, Answer, Whole, Value;
    DigitMeans('2');
    DigitMeans('3');
    var tower, square := [Numeral("2"), Symbol('^'), Numeral("3"), Symbol('^'), Numeral("2")],
                         [Symbol('-'), Numeral("2"), Symbol('^'), Numeral("2")];
    PowersGroup(Digit('2'), Digit('3'), Digit('2'));
    assert tower == Yield(Digit('2')) + [Symbol('^')] + Yield(Digit('3')) + [Symbol('^')] + Yield(Digit('2'));
    assert square == [Symbol('-')] + Yield(Digit('2')) + [Symbol('^')] + Yield(Digit('2'));
    TowerValue();
    SquareValue();
    Answered(tower, Power(Digit('2'), Power(Digit('3'), Digit('2'))), 512.0);
    Answered(square, Power(Sign(true, Digit('2')), Digit('2')), 4.0);
  }

  lemma TowerValue()
    ensures Value(Whole(), Power(Digit('2'), Power(Digit('3'), Digit('2')))) == 512.0
  {
    DigitMeans('2');
    DigitMeans('3');
    PowersMean();
    assert Value(Whole(), Power(Digit('3'), Digit('2'))) == 9.0;
  }

  lemma SquareValue()
    ensures Value(Whole(), Power(Sign(true, Digit('2')), Digit('2'))) == 4.0
  {
    DigitMeans('2');
    PowersMean();
  }

  lemma PowersMean()
    ensures PowerOf(3.0, 2) == 9.0 && PowerOf(2.0, 9) == 512.0 && PowerOf(-2.0, 2) == 4.0
  {
    assert PowerOf(2.0, 3) == 8.0;
    assert PowerOf(2.0, 6) == 64.0;
  }

  /** 5% is a twentieth, tau%4 is a remainder, sqrt(9) is 3, and constants and plus signs are worth what they say. */
  lemma ExampleOthers()
    ensures Answer(Whole(), [Numeral("5"), Symbol('%')]) == Some(0.05)
    ensures Answer(Whole(), [Word("tau"), Symbol('%'), Numeral("4")]) == Some(2.0)
    ensures Answer(Whole(), [Word("sqrt"), Symbol('('), Numeral("9"), Symbol(')')]) == Some(3.0)
    ensures Answer(Whole(), [Word("pi"), Symbol('+'), Word("e")]) == Some(5.5)
  {
    var percent, rest := Number("5", 1), Binary(Modulo, Constant("tau"), Digit('4'));
    var root, sum := Call("sqrt", Digit('9')), Binary(Plus, Constant("pi"), Constant("e"));
    OtherYields();
    OtherValues();
    hide Derivation, Yield, Answer, Whole, Value;
    Grouped(percent, [Numeral("5"), Symbol('%')]);
    Grouped(rest, [Word("tau"), Symbol('%'), Numeral("4")]);
    Grouped(root, [Word("sqrt"), Symbol('('), Numeral("9"), Symbol(')')]);
    Grouped(sum, [Word("pi"), Symbol('+'), Word("e")]);
    Answered([Numeral("5"), Symbol('%')], percent, 0.05);
    Answered([Word("tau"), Symbol('%'), Numeral("4")], rest, 2.0);
    Answered([Word("sqrt"), Symbol('('), Numeral("9"), Symbol(')')], root, 3.0);
    Answered([Word("pi"), Symbol('+'), Word("e")], sum, 5.5);
  }

  lemma OtherYields()
    ensures Yield(Number("5", 1)) == [Numeral("5"), Symbol('%')]
    ensures Yield(Binary(Modulo, Constant("tau"), Digit('4'))) == [Word("tau"), Symbol('%'), Numeral("4")]
    ensures Yield(Call("sqrt", Digit('9'))) == [Word("sqrt"), Symbol('('), Numeral("9"), Symbol(')')]
    ensures Yield(Binary(Plus, Constant("pi"), Constant("e"))) == [Word("pi"), Symbol('+'), Word("e")]
  {
    DigitMeans('4');
    DigitMeans('9');
    assert Percents(1) == [Symbol('%')];
  }

  lemma OtherValues()
    ensures Value(Whole(), Number("5", 1)) == 0.05
    ensures Value(Whole(), Binary(Modulo, Constant("tau"), Digit('4'))) == 2.0
    ensures Value(Whole(), Call("sqrt", Digit('9'))) == 3.0
    ensures Value(Whole(), Binary(Plus, Constant("pi"), Constant("e"))) == 5.5
  {
    DigitMeans('4');
    DigitMeans('9');
    var ar := Whole();
    assert ar.literal("5") == 5.0;
    assert ApplyPercents(ar, 5.0, 1) == ar.div(ApplyPercents(ar, 5.0, 0), ar.hundred);
    assert (6.0 / 4.0).Floor == 1;
  }

  // ---------- numbers and words in a text ----------

  /** What the number loop reads in one turn: a digit, the dot, or an exponent letter with what follows it. */
  datatype Part = Numeric(c: char) | Dot | Exponent(letter: char, next: char)

  function PartText(p: Part): string {
    match p
    case Numeric(c) => [c]
    case Dot => "."
    case Exponent(letter, next) => [letter, next]
  }

  predicate IsPart(p: Part) {
    match p
    case Numeric(c) => IsDigit(c)
    case Dot => true
    case Exponent(letter, next) => letter in "eE" && (next in "+-" || IsDigit(next))
  }

  function Text(parts: seq<Part>): string {
    if parts == [] then "" else PartText(parts[0]) + Text(parts[1..])
  }

  /** Any such parts, with one dot at most. */
  predicate IsNumeral(parts: seq<Part>, seenDot: bool) {
    parts == [] || (IsPart(parts[0]) && (parts[0].Dot? ==> !seenDot) && IsNumeral(parts[1..], seenDot || parts[0].Dot?))
  }

  predicate HasDot(parts: seq<Part>) {
    Dot in parts
  }

  /** Could the number go on with s? */
  predicate GoesOn(s: string, seenDot: bool) {
    s != "" && (IsDigit(s[0]) || (s[0] == '.' && !seenDot) || (|s| > 1 && s[0] in "eE" && (s[1] in "+-" || IsDigit(s[1]))))
  }

  lemma {:induction false} DigitsAreSkipped(s: string, seenDot: bool)
    ensures NumeralRest(DigitsRest(s), seenDot) == NumeralRest(s, seenDot)
  {
    if s != "" && IsDigit(s[0]) {
      DigitsAreSkipped(s[1..], seenDot);
    }
  }

  lemma PartIsRead(p: Part, tail: string, seenDot: bool)
    requires IsPart(p) && (p.Dot? ==> !seenDot)
    ensures NumeralRest(PartText(p) + tail, seenDot) == NumeralRest(tail, seenDot || p.Dot?)
  {
    var s := PartText(p) + tail;
    if p.Exponent? {
      assert s[2..] == tail && s[1] == p.next;
      DigitsAreSkipped(tail, seenDot);
    } else {
      assert s[1..] == tail;
    }
  }

  /** A number ends where it cannot go on: given any parts and a rest with which they do not go on, the rest is left. */
  lemma {:induction false} NumeralEnds(parts: seq<Part>, rest: string, seenDot: bool)
    requires IsNumeral(parts, seenDot) && !GoesOn(rest, seenDot || HasDot(parts))
    ensures NumeralRest(Text(parts) + rest, seenDot) == rest
    decreases |parts|
  {
    hide NumeralRest, GoesOn, PartText, IsPart;
    if parts == [] {
      NumeralStops(rest, seenDot);
      assert Text(parts) + rest == rest;
    } else {
      var tail := Text(parts[1..]) + rest;
      assert Text(parts) + rest == PartText(parts[0]) + tail;
      assert HasDot(parts) <==> parts[0].Dot? || HasDot(parts[1..]);
      PartIsRead(parts[0], tail, seenDot);
      NumeralEnds(parts[1..], rest, seenDot || parts[0].Dot?);
    }
  }

  function FirstPart(s: string, seenDot: bool): (p: Part)
    requires GoesOn(s, seenDot)
    ensures IsPart(p) && (p.Dot? ==> !seenDot) && |PartText(p)| <= |s| && s == PartText(p) + s[|PartText(p)|..]
  {
    if IsDigit(s[0]) then Numeric(s[0]) else if s[0] == '.' && !seenDot then Dot else Exponent(s[0], s[1])
  }

  lemma FirstPartIsRead(s: string, seenDot: bool)
    requires GoesOn(s, seenDot)
    ensures var p := FirstPart(s, seenDot);
            NumeralRest(s, seenDot) == NumeralRest(s[|PartText(p)|..], seenDot || p.Dot?)
  {
    if FirstPart(s, seenDot).Exponent? {
      DigitsAreSkipped(s[2..], seenDot);
    }
  }

  lemma NumeralStops(s: string, seenDot: bool)
    requires !GoesOn(s, seenDot)
    ensures NumeralRest(s, seenDot) == s
  {
  }

  /** And what is read before it always is such parts. */
  lemma {:induction false} NumeralParts(s: string, seenDot: bool) returns (parts: seq<Part>)
    ensures IsNumeral(parts, seenDot) && s == Text(parts) + NumeralRest(s, seenDot)
    ensures !GoesOn(NumeralRest(s, seenDot), seenDot || HasDot(parts))
    decreases |s|
  {
    hide NumeralRest, GoesOn, IsPart, PartText;
    if !GoesOn(s, seenDot) {
      NumeralStops(s, seenDot);
      parts := [];
      assert s == "" + s;
    } else {
      var p := FirstPart(s, seenDot);
      PartIsLong(p);
      FirstPartIsRead(s, seenDot);
      var more := NumeralParts(s[|PartText(p)|..], seenDot || p.Dot?);
      parts := [p] + more;
      assert parts[1..] == more;
      assert HasDot(parts) <==> p.Dot? || HasDot(more);
    }
  }

  lemma PartIsLong(p: Part)
    ensures |PartText(p)| > 0
  {
  }

  /** The word loop reads the longest run of word characters. */
  lemma {:induction false} WordEnds(word: string, rest: string)
    requires (forall i :: 0 <= i < |word| ==> ContinuesWord(word[i])) && (rest == "" || !ContinuesWord(rest[0]))
    ensures WordRest(word + rest) == rest
  {
    if word == "" {
      assert word + rest == rest;
    } else {
      assert (word + rest)[1..] == word[1..] + rest;
      WordEnds(word[1..], rest);
    }
  }

  lemma {:induction false} WordParts(s: string)
    ensures var n := |s| - |WordRest(s)|;
            s[n..] == WordRest(s) && (forall i :: 0 <= i < n ==> ContinuesWord(s[i])) && (n == |s| || !ContinuesWord(s[n]))
  {
    if s != "" && ContinuesWord(s[0]) {
      WordParts(s[1..]);
    }
  }

  // ---------- which texts have tokens ----------

  predicate IsLegal(c: char) {
    IsSpace(c) || IsDigit(c) || c == '.' || StartsWord(c) || IsSymbol(c)
  }

  predicate AllLegal(s: string) {
    forall i :: 0 <= i < |s| ==> IsLegal(s[i])
  }

  lemma AllLegalParts(a: string, b: string)
    ensures AllLegal(a + b) <==> AllLegal(a) && AllLegal(b)
  {
    assert forall i :: 0 <= i < |a| ==> (a + b)[i] == a[i];
    assert forall i :: 0 <= i < |b| ==> (a + b)[|a| + i] == b[i];
  }

  lemma {:induction false} NumeralIsLegal(parts: seq<Part>, seenDot: bool)
    requires IsNumeral(parts, seenDot)
    ensures AllLegal(Text(parts))
    decreases |parts|
  {
    if parts != [] {
      NumeralIsLegal(parts[1..], seenDot || parts[0].Dot?);
      AllLegalParts(PartText(parts[0]), Text(parts[1..]));
    }
  }

  /** The first token or blank of a text, as far as it reaches. */
  function FirstLength(s: string): (n: nat)
    requires s != ""
    ensures 1 <= n <= |s|
  {
    if IsSpace(s[0]) then 1
    else if IsDigit(s[0]) || s[0] == '.' then |s| - |NumeralRest(s[1..], s[0] == '.')|
    else if StartsWord(s[0]) then |s| - |WordRest(s[1..])|
    else 1
  }

  lemma NumeralSplits(s: string)
    requires s != "" && !IsSpace(s[0]) && (IsDigit(s[0]) || s[0] == '.')
    ensures var n := FirstLength(s);
            AllLegal(s[..n]) && s[n..] == NumeralRest(s[1..], s[0] == '.')
  {
    hide IsSpace, NumeralRest, IsNumeral, AllLegal, Text;
    var n := FirstLength(s);
    var parts := NumeralParts(s[1..], s[0] == '.');
    var rest := NumeralRest(s[1..], s[0] == '.');
    FirstAndRest(s, Text(parts), rest);
    RestOfSuffix(s, [s[0]] + Text(parts), rest);
    NumeralIsLegal(parts, s[0] == '.');
    AllLegalParts([s[0]], Text(parts));
    StartIsLegal(s[0]);
  }

  lemma FirstAndRest(s: string, a: string, b: string)
    requires s != "" && s[1..] == a + b
    ensures s == [s[0]] + a + b
  {
    assert s == [s[0]] + s[1..];
  }

  lemma StartIsLegal(c: char)
    requires IsDigit(c) || c == '.'
    ensures AllLegal([c])
  {
  }

  lemma WordSplits(s: string)
    requires s != "" && !IsSpace(s[0]) && !IsDigit(s[0]) && s[0] != '.' && StartsWord(s[0])
    ensures var n := FirstLength(s);
            AllLegal(s[..n]) && s[n..] == WordRest(s[1..])
  {
    hide IsSpace, WordRest, AllLegal, ContinuesWord;
    var n := FirstLength(s);
    WordParts(s[1..]);
    var word := s[..n];
    assert s[1..][n - 1..] == s[n..];
    forall i | 0 <= i < n ensures ContinuesWord(word[i]) {
      if i > 0 {
        assert s[1..][i - 1] == word[i];
      } else {
        StartContinues(s[0]);
      }
    }
    WordIsLegal(word);
  }

  lemma StartContinues(c: char)
    requires StartsWord(c)
    ensures ContinuesWord(c)
  {
  }

  lemma WordIsLegal(word: string)
    requires forall i :: 0 <= i < |word| ==> ContinuesWord(word[i])
    ensures AllLegal(word)
  {
  }

  lemma FirstIsLegal(s: string)
    requires s != "" && (IsSpace(s[0]) || IsDigit(s[0]) || s[0] == '.' || StartsWord(s[0]))
    ensures AllLegal(s[..FirstLength(s)])
    ensures Lex(s).Some? <==> Lex(s[FirstLength(s)..]).Some?
  {
    hide IsSpace, NumeralRest, WordRest, IsSymbol;
    if !IsSpace(s[0]) {
      if IsDigit(s[0]) || s[0] == '.' {
        NumeralSplits(s);
      } else {
        WordSplits(s);
      }
    }
  }

  /** A text has tokens if and only if each of its characters is a blank or can occur in a token. */
  lemma {:induction false} LexedExactly(s: string)
    ensures Lex(s).Some? <==> AllLegal(s)
    decreases |s|
  {
    if s != "" {
      var n := FirstLength(s);
      LexedExactly(s[n..]);
      assert s == s[..n] + s[n..];
      AllLegalParts(s[..n], s[n..]);
      if IsSpace(s[0]) || IsDigit(s[0]) || s[0] == '.' || StartsWord(s[0]) {
        FirstIsLegal(s);
      }
    }
  }

  // ---------- tokens are what the text says ----------

  lemma LowerJoined(a: string, b: string)
    ensures Lower(a + b) == Lower(a) + Lower(b)
  {
  }

  lemma LowerTwice(s: string)
    ensures Lower(Lower(s)) == Lower(s)
  {
  }

  /** The tokens, with the blanks of the text between them, are the text itself, up to the case of letters. */
  lemma {:induction false} TokensAreText(s: string) returns (gaps: seq<string>)
    requires Lex(s).Some?
    ensures |gaps| == |Lex(s).value| + 1 && (forall i :: 0 <= i < |gaps| ==> Blank(gaps[i]))
    ensures Lower(Layout(Lex(s).value, gaps)) == Lower(s)
    decreases |s|
  {
    if s == "" {
      gaps := [""];
    } else {
      hide Lower, IsSpace, NumeralRest, WordRest, Layout, Spelling;
      var n := FirstLength(s);
      FirstToken(s);
      var more := TokensAreText(s[n..]);
      var rest := Lex(s[n..]).value;
      LowerJoined(s[..n], s[n..]);
      assert s == s[..n] + s[n..];
      if IsSpace(s[0]) {
        gaps := [s[..n] + more[0]] + more[1..];
        BlankJoined(s[..n], more[0]);
        LayoutAfterBlank(rest, s[..n], more);
        LowerJoined(s[..n], Layout(rest, more));
      } else {
        gaps := [""] + more;
        var t := Lex(s).value[0];
        assert Lex(s).value == [t] + rest;
        LayoutAfterToken(t, rest, more);
        LowerJoined(Spelling(t), Layout(rest, more));
      }
    }
  }

  lemma FirstToken(s: string)
    requires s != "" && Lex(s).Some?
    ensures var n := FirstLength(s);
            && Lex(s[n..]).Some?
            && if IsSpace(s[0]) then Lex(s) == Lex(s[n..])
               else exists t :: Lex(s).value == [t] + Lex(s[n..]).value && Lower(Spelling(t)) == Lower(s[..n])
  {
    hide IsSpace, NumeralRest, WordRest, IsSymbol, Lower;
    var n := FirstLength(s);
    if !IsSpace(s[0]) {
      if IsDigit(s[0]) || s[0] == '.' {
        NumeralSplits(s);
        assert Lex(s).value == [Numeral(s[..n])] + Lex(s[n..]).value;
      } else if StartsWord(s[0]) {
        WordSplits(s);
        LowerTwice(s[..n]);
        assert Lex(s).value == [Word(Lower(s[..n]))] + Lex(s[n..]).value;
      } else {
        assert s[..n] == [s[0]];
        assert Lex(s).value == [Symbol(s[0])] + Lex(s[n..]).value;
      }
    }
  }

  lemma RestOfSuffix(s: string, a: string, rest: string)
    requires s == a + rest
    ensures s[|s| - |rest|..] == rest && s[..|s| - |rest|] == a
  {
  }

  lemma BlankJoined(a: string, b: string)
    requires (forall i :: 0 <= i < |a| ==> IsSpace(a[i])) && Blank(b)
    ensures Blank(a + b)
  {
  }

  lemma LayoutAfterToken(t: Token, ts: seq<Token>, gaps: seq<string>)
    requires |gaps| == |ts| + 1
    ensures Layout([t] + ts, [""] + gaps) == Spelling(t) + Layout(ts, gaps)
  {
    assert ([t] + ts)[1..] == ts && ([""] + gaps)[1..] == gaps;
  }

  lemma LayoutAfterBlank(ts: seq<Token>, blank: string, gaps: seq<string>)
    requires |gaps| == |ts| + 1
    ensures Layout(ts, [blank + gaps[0]] + gaps[1..]) == blank + Layout(ts, gaps)
  {
    var gaps' := [blank + gaps[0]] + gaps[1..];
    assert gaps'[1..] == gaps[1..];
  }
}
