/**
 The character tokenizer of the Pulse calculator, a printer for arbitrary expression trees, and the
 proof that printing, tokenizing and evaluating gives back the value of the tree.
 */
module CalculatorLexer {
  import opened Prelude
  import opened CalculatorGrammar
  import opened CalculatorParser

  // ---------- characters ----------

  predicate IsSpace(c: char) {
    || '\U{0009}' <= c <= '\U{000D}' || c == ' ' || c == '\U{00A0}' || c == '\U{1680}'
    || '\U{2000}' <= c <= '\U{200A}' || c == '\U{2028}' || c == '\U{2029}'
    || c == '\U{202F}' || c == '\U{205F}' || c == '\U{3000}' || c == '\U{FEFF}'
  }

  predicate IsDigit(c: char) {
    '0' <= c <= '9'
  }

  predicate StartsWord(c: char) {
    'A' <= c <= 'Z' || 'a' <= c <= 'z' || c == '_'
  }

  predicate ContinuesWord(c: char) {
    StartsWord(c) || IsDigit(c)
  }

  predicate IsSymbol(c: char) {
    c in "+-*/%^(),"
  }

  function Lower(s: string): (r: string)
    ensures |r| == |s|
  {
    seq(|s|, i requires 0 <= i < |s| => if 'A' <= s[i] <= 'Z' then ((s[i] as int) + 32) as char else s[i])
  }

  // ---------- what the scanning loops leave unread ----------

  function DigitsRest(s: string): (r: string)
    ensures |r| <= |s|
  {
    if s != "" && IsDigit(s[0]) then DigitsRest(s[1..]) else s
  }

  function NumeralRest(s: string, seenDot: bool): (r: string)
    ensures |r| <= |s|
    decreases |s|
  {
    if s == "" then s
    else if IsDigit(s[0]) then NumeralRest(s[1..], seenDot)
    else if s[0] == '.' && !seenDot then NumeralRest(s[1..], true)
    else if (s[0] == 'e' || s[0] == 'E') && |s| > 1 && (s[1] == '+' || s[1] == '-' || IsDigit(s[1])) then
      NumeralRest(DigitsRest(s[2..]), seenDot)
    else s
  }

  function WordRest(s: string): (r: string)
    ensures |r| <= |s|
  {
    if s != "" && ContinuesWord(s[0]) then WordRest(s[1..]) else s
  }

  /** The tokens of a text, or None if it has a character the tokenizer rejects. */
  function Lex(s: string): Option<seq<Token>>
    decreases |s|
  {
    if s == "" then
      Some([])
    else if IsSpace(s[0]) then
      Lex(s[1..])
    else if IsDigit(s[0]) || s[0] == '.' then
      var rest := NumeralRest(s[1..], s[0] == '.');
      var ts :- Lex(rest);
      Some([Numeral(s[..|s| - |rest|])] + ts)
    else if StartsWord(s[0]) then
      var rest := WordRest(s[1..]);
      var ts :- Lex(rest);
      Some([Word(Lower(s[..|s| - |rest|]))] + ts)
    else if IsSymbol(s[0]) then
      var ts :- Lex(s[1..]);
      Some([Symbol(s[0])] + ts)
    else
      None
  }

  // ---------- the tokenizer ----------

  lemma NumeralStep(expr: string, i: nat, seenDot: bool)
    requires i < |expr|
    ensures var c := expr[i];
            var exponent := (c == 'e' || c == 'E') && i + 1 < |expr|
                            && (expr[i + 1] == '+' || expr[i + 1] == '-' || IsDigit(expr[i + 1]));
            NumeralRest(expr[i..], seenDot) ==
            if IsDigit(c) then NumeralRest(expr[i + 1..], seenDot)
            else if c == '.' && !seenDot then NumeralRest(expr[i + 1..], true)
            else if exponent then NumeralRest(DigitsRest(expr[i + 2..]), seenDot)
            else expr[i..]
  {
  }

  method ScanDigits(expr: string, start: nat) returns (i: nat)
    requires start <= |expr|
    ensures start <= i <= |expr| && expr[i..] == DigitsRest(expr[start..])
  {
    i := start;
    while i < |expr| && IsDigit(expr[i])
      invariant start <= i <= |expr|
      invariant DigitsRest(expr[start..]) == DigitsRest(expr[i..])
    {
      assert expr[i..][1..] == expr[i + 1..];
      i := i + 1;
    }
  }

  method ScanNumeral(expr: string, start: nat) returns (i: nat)
    requires start < |expr|
    ensures start < i <= |expr|
    ensures expr[i..] == NumeralRest(expr[start + 1..], expr[start] == '.')
  {
    hide DigitsRest, IsDigit;
    var seenDot := expr[start] == '.';
    i := start + 1;
    while i < |expr|
      invariant start < i <= |expr|
      invariant NumeralRest(expr[start + 1..], expr[start] == '.') == NumeralRest(expr[i..], seenDot)
      decreases |expr| - i
    {
      NumeralStep(expr, i, seenDot);
      hide NumeralRest;
      var c := expr[i];
      if IsDigit(c) {
        i := i + 1;
        continue;
      }
      if c == '.' && !seenDot {
        seenDot := true;
        i := i + 1;
        continue;
      }
      if (c == 'e' || c == 'E') && i + 1 < |expr| {
        var sign := expr[i + 1];
        if sign == '+' || sign == '-' || IsDigit(sign) {
          i := ScanDigits(expr, i + 2);
          continue;
        }
      }
      break;
    }
  }

  method ScanWord(expr: string, start: nat) returns (i: nat)
    requires start < |expr|
    ensures start < i <= |expr|
    ensures expr[i..] == WordRest(expr[start + 1..])
  {
    i := start + 1;
    while i < |expr| && ContinuesWord(expr[i])
      invariant start < i <= |expr|
      invariant WordRest(expr[start + 1..]) == WordRest(expr[i..])
    {
      assert expr[i..][1..] == expr[i + 1..];
      i := i + 1;
    }
  }

  ghost function Prepend(ts: seq<Token>, r: Option<seq<Token>>): Option<seq<Token>> {
    if r.Some? then Some(ts + r.value) else None
  }

  lemma PrependTwice(ts: seq<Token>, t: Token, r: Option<seq<Token>>)
    ensures Prepend(ts, Prepend([t], r)) == Prepend(ts + [t], r)
  {
    if r.Some? {
      assert ts + ([t] + r.value) == ts + [t] + r.value;
    }
  }

  lemma PrependNothing(r: Option<seq<Token>>)
    ensures Prepend([], r) == r
  {
    if r.Some? {
      assert [] + r.value == r.value;
    }
  }

  lemma NumeralLexed(expr: string, i: nat, j: nat)
    requires i < j <= |expr| && !IsSpace(expr[i]) && (IsDigit(expr[i]) || expr[i] == '.')
    requires expr[j..] == NumeralRest(expr[i + 1..], expr[i] == '.')
    ensures Lex(expr[i..]) == Prepend([Numeral(expr[i..j])], Lex(expr[j..]))
  {
    hide NumeralRest, IsSpace, WordRest, Lower;
    assert expr[i..][1..] == expr[i + 1..] && expr[i..][..j - i] == expr[i..j];
  }

  lemma WordLexed(expr: string, i: nat, j: nat)
    requires i < j <= |expr| && !IsSpace(expr[i]) && StartsWord(expr[i]) && expr[j..] == WordRest(expr[i + 1..])
    ensures Lex(expr[i..]) == Prepend([Word(Lower(expr[i..j]))], Lex(expr[j..]))
  {
    hide NumeralRest, IsSpace, WordRest, Lower;
    assert expr[i..][1..] == expr[i + 1..] && expr[i..][..j - i] == expr[i..j];
  }

  lemma SymbolLexed(expr: string, i: nat)
    requires i < |expr| && !IsSpace(expr[i]) && !IsDigit(expr[i]) && expr[i] != '.' && !StartsWord(expr[i])
    ensures Lex(expr[i..]) == if IsSymbol(expr[i]) then Prepend([Symbol(expr[i])], Lex(expr[i + 1..])) else None
  {
    hide NumeralRest, IsSpace, WordRest, Lower, IsSymbol;
    assert expr[i..][1..] == expr[i + 1..];
  }

  /** One token of the tokenizer's loop: t is read between i and j. */
  method NextToken(expr: string, i: nat) returns (j: nat, t: Option<Token>)
    requires i < |expr| && !IsSpace(expr[i])
    ensures t.Some? ==> i < j <= |expr| && Lex(expr[i..]) == Prepend([t.value], Lex(expr[j..]))
    ensures t.None? ==> Lex(expr[i..]) == None
  {
    hide NumeralRest, WordRest, Lower, Lex, Prepend, IsSymbol, IsSpace;
    var ch := expr[i];
    if IsDigit(ch) || ch == '.' {
      j := ScanNumeral(expr, i);
      NumeralLexed(expr, i, j);
      t := Some(Numeral(expr[i..j]));
    } else if StartsWord(ch) {
      j := ScanWord(expr, i);
      WordLexed(expr, i, j);
      t := Some(Word(Lower(expr[i..j])));
    } else if IsSymbol(ch) {
      SymbolLexed(expr, i);
      j, t := i + 1, Some(Symbol(ch));
    } else {
      SymbolLexed(expr, i);
      j, t := i, None;
    }
  }

  method Tokenize(expr: string) returns (r: Option<seq<Token>>)
    ensures r == Lex(expr)
  {
    var tokens: seq<Token> := [];
    var i := 0;
    assert expr[0..] == expr;
    PrependNothing(Lex(expr));
    while i < |expr|
      invariant 0 <= i <= |expr|
      invariant Lex(expr) == Prepend(tokens, Lex(expr[i..]))
      decreases |expr| - i
    {
      if IsSpace(expr[i]) {
        assert expr[i..][1..] == expr[i + 1..];
        i := i + 1;
        continue;
      }
      var j, t := NextToken(expr, i);
      if t.None? {
        return None;
      }
      PrependTwice(tokens, t.value, Lex(expr[j..]));
      i, tokens := j, tokens + [t.value];
    }
    assert expr[i..] == "";
    assert tokens + [] == tokens;
    r := Some(tokens);
  }

  // ---------- laying tokens out as text ----------

  function Spelling(t: Token): string {
    match t
    case Numeral(text) => text
    case Word(name) => name
    case Symbol(c) => [c]
  }

  /** A token some text can be read as. */
  predicate WellSpelled(t: Token) {
    match t
    case Numeral(text) =>
      text != "" && (IsDigit(text[0]) || text[0] == '.') && NumeralRest(text[1..], text[0] == '.') == ""
    case Word(name) =>
      name != "" && StartsWord(name[0]) && WordRest(name[1..]) == "" && Lower(name) == name
    case Symbol(c) => IsSymbol(c)
  }

  predicate IsOperand(t: Token) {
    t.Numeral? || t.Word?
  }

  predicate Blank(s: string) {
    forall c :: c in s ==> IsSpace(c)
  }

  /** The tokens with the given white space before, between and after them. */
  function Layout(ts: seq<Token>, gaps: seq<string>): string
    requires |gaps| == |ts| + 1
  {
    if ts == [] then gaps[0] else gaps[0] + (Spelling(ts[0]) + Layout(ts[1..], gaps[1..]))
  }

  /** White space is free, except that two numbers or words in a row need some between them. */
  predicate Readable(ts: seq<Token>, gaps: seq<string>)
    requires |gaps| == |ts| + 1
  {
    && (forall i :: 0 <= i < |gaps| ==> Blank(gaps[i]))
    && (forall i :: 0 < i < |ts| && IsOperand(ts[i - 1]) && IsOperand(ts[i]) ==> gaps[i] != "")
  }

  /** A text that neither a number nor a word runs on into. */
  predicate Breaks(s: string) {
    s == "" || !(ContinuesWord(s[0]) || s[0] == '.')
  }

  lemma {:induction false} BlankIsSkipped(gap: string, s: string)
    requires Blank(gap)
    ensures Lex(gap + s) == Lex(s)
  {
    if gap == "" {
      assert gap + s == s;
    } else {
      assert gap[0] in gap;
      assert (gap + s)[1..] == gap[1..] + s;
      BlankIsSkipped(gap[1..], s);
    }
  }

  lemma {:induction false} DigitsRestExtends(s: string, rest: string)
    requires Breaks(rest)
    ensures DigitsRest(s + rest) == DigitsRest(s) + rest
  {
    if s == "" {
      assert s + rest == rest;
    } else {
      assert (s + rest)[1..] == s[1..] + rest;
      DigitsRestExtends(s[1..], rest);
    }
  }

  lemma {:induction false} NumeralIsScanned(s: string, seenDot: bool, rest: string)
    requires NumeralRest(s, seenDot) == "" && Breaks(rest)
    ensures NumeralRest(s + rest, seenDot) == rest
    decreases |s|
  {
    var t := s + rest;
    if s == "" {
      assert t == rest;
    } else {
      assert t[1..] == s[1..] + rest;
      if IsDigit(s[0]) {
        NumeralIsScanned(s[1..], seenDot, rest);
      } else if s[0] == '.' && !seenDot {
        NumeralIsScanned(s[1..], true, rest);
      } else {
        assert t[2..] == s[2..] + rest;
        DigitsRestExtends(s[2..], rest);
        NumeralIsScanned(DigitsRest(s[2..]), seenDot, rest);
      }
    }
  }

  lemma {:induction false} WordIsScanned(s: string, rest: string)
    requires WordRest(s) == "" && Breaks(rest)
    ensures WordRest(s + rest) == rest
  {
    if s == "" {
      assert s + rest == rest;
    } else {
      assert (s + rest)[1..] == s[1..] + rest;
      WordIsScanned(s[1..], rest);
    }
  }

  lemma TokenIsRead(t: Token, rest: string)
    requires WellSpelled(t) && (IsOperand(t) ==> Breaks(rest))
    ensures Lex(Spelling(t) + rest) == Prepend([t], Lex(rest))
  {
    var s := Spelling(t);
    var all := s + rest;
    assert all[1..] == s[1..] + rest;
    match t
    case Numeral(text) =>
      NumeralIsScanned(text[1..], text[0] == '.', rest);
      assert all[..|all| - |rest|] == text;
    case Word(name) =>
      WordIsScanned(name[1..], rest);
      assert all[..|all| - |rest|] == name;
    case Symbol(c) =>
      assert all[1..] == rest;
  }

  /** However the tokens are spaced, the tokenizer finds them again. */
  lemma {:induction false} LayoutIsRead(ts: seq<Token>, gaps: seq<string>)
    requires |gaps| == |ts| + 1 && Readable(ts, gaps)
    requires forall t :: t in ts ==> WellSpelled(t)
    ensures Lex(Layout(ts, gaps)) == Some(ts)
  {
    if ts == [] {
      assert gaps[0] == gaps[0] + "";
      BlankIsSkipped(gaps[0], "");
    } else {
      var rest := Layout(ts[1..], gaps[1..]);
      BlankIsSkipped(gaps[0], Spelling(ts[0]) + rest);
      assert Blank(gaps[1]);
      if IsOperand(ts[0]) {
        NextBreaks(ts, gaps);
      }
      assert WellSpelled(ts[0]);
      TokenIsRead(ts[0], rest);
      LayoutIsRead(ts[1..], gaps[1..]);
      assert [ts[0]] + ts[1..] == ts;
    }
  }

  lemma NextBreaks(ts: seq<Token>, gaps: seq<string>)
    requires |gaps| == |ts| + 1 && Readable(ts, gaps)
    requires forall t :: t in ts ==> WellSpelled(t)
    requires |ts| > 0 && IsOperand(ts[0])
    ensures Breaks(Layout(ts[1..], gaps[1..]))
  {
    assert Blank(gaps[1]);
    if gaps[1] != "" {
      assert gaps[1][0] in gaps[1];
    } else if |ts| > 1 {
      assert WellSpelled(ts[1]);
    }
  }

  // ---------- printing trees ----------

  /** e with the parentheses it needs to stand at level l. */
  function Fit(e: Expr, l: Level): Expr {
    if Grammatical(e, l) then e else Group(e, 0)
  }

  /** e with the parentheses the grammar needs inside it. */
  function Parenthesize(e: Expr): Expr {
    match e
    case Number(_, _) => e
    case Constant(_) => e
    case Call(fn, arg) => Call(fn, Parenthesize(arg))
    case Group(inner, k) => Group(Parenthesize(inner), k)
    case Sign(minus, operand) => Sign(minus, Fit(Parenthesize(operand), Signed))
    case Power(base, exponent) => Power(Fit(Parenthesize(base), Signed), Fit(Parenthesize(exponent), Exponential))
    case Binary(op, left, right) =>
      if IsAdditive(op) then Binary(op, Parenthesize(left), Fit(Parenthesize(right), Product))
      else Binary(op, Fit(Parenthesize(left), Product), Fit(Parenthesize(right), Exponential))
  }

  /** Does the printed text of e end where a following '%' would be read as a percent sign? */
  predicate PrintsOpen(e: Expr) {
    TakesPercent(Fit(Parenthesize(e), Product))
  }

  /** The trees the calculator can express: known names, and no binary % behind a number or a parenthesis. */
  predicate Expressible(e: Expr) {
    match e
    case Number(_, _) => true
    case Constant(name) => name in CONSTANTS
    case Call(fn, arg) => fn in FUNCTIONS && Expressible(arg)
    case Group(inner, _) => Expressible(inner)
    case Sign(_, operand) => Expressible(operand)
    case Power(base, exponent) => Expressible(base) && Expressible(exponent)
    case Binary(op, left, right) => Expressible(left) && Expressible(right) && (op.Modulo? ==> !PrintsOpen(left))
  }

  lemma FitIsGrammatical(e: Expr, l: Level)
    ensures Grammatical(Fit(e, l), l) <==> Grammatical(e, Sum)
  {
  }

  /** Parentheses make a tree grammatical exactly when it is expressible. */
  lemma {:induction false} ParenthesizedExactly(e: Expr)
    ensures Grammatical(Parenthesize(e), Sum) <==> Expressible(e)
  {
    match e
    case Number(_, _) =>
    case Constant(_) =>
    case Call(_, arg) =>
      ParenthesizedExactly(arg);
    case Group(inner, _) =>
      ParenthesizedExactly(inner);
    case Sign(_, operand) =>
      ParenthesizedExactly(operand);
      FitIsGrammatical(Parenthesize(operand), Signed);
    case Power(base, exponent) =>
      ParenthesizedExactly(base);
      ParenthesizedExactly(exponent);
      FitIsGrammatical(Parenthesize(base), Signed);
      FitIsGrammatical(Parenthesize(exponent), Exponential);
    case Binary(_, left, right) =>
      ParenthesizedExactly(left);
      ParenthesizedExactly(right);
      FitIsGrammatical(Parenthesize(left), Product);
      FitIsGrammatical(Parenthesize(right), Product);
      FitIsGrammatical(Parenthesize(right), Exponential);
  }

  /** p is e with parentheses put around any of its parts. */
  predicate Parenthesizes(p: Expr, e: Expr)
    decreases p
  {
    || (p.Group? && p.percents == 0 && Parenthesizes(p.inner, e))
    || match e
       case Number(_, _) => p == e
       case Constant(_) => p == e
       case Call(fn, arg) => p.Call? && p.fn == fn && Parenthesizes(p.arg, arg)
       case Group(inner, k) => p.Group? && p.percents == k && Parenthesizes(p.inner, inner)
       case Sign(minus, operand) => p.Sign? && p.minus == minus && Parenthesizes(p.operand, operand)
       case Power(base, exponent) => p.Power? && Parenthesizes(p.base, base) && Parenthesizes(p.exponent, exponent)
       case Binary(op, left, right) =>
         p.Binary? && p.op == op && Parenthesizes(p.left, left) && Parenthesizes(p.right, right)
  }

  lemma {:induction false} PrinterParenthesizes(e: Expr)
    ensures Parenthesizes(Parenthesize(e), e)
  {
    match e
    case Number(_, _) =>
    case Constant(_) =>
    case Call(_, arg) => PrinterParenthesizes(arg);
    case Group(inner, _) => PrinterParenthesizes(inner);
    case Sign(_, operand) =>
      PrinterParenthesizes(operand);
      FitParenthesizes(Parenthesize(operand), operand, Signed);
    case Power(base, exponent) =>
      PrinterParenthesizes(base);
      PrinterParenthesizes(exponent);
      FitParenthesizes(Parenthesize(base), base, Signed);
      FitParenthesizes(Parenthesize(exponent), exponent, Exponential);
    case Binary(op, left, right) =>
      PrinterParenthesizes(left);
      PrinterParenthesizes(right);
      FitParenthesizes(Parenthesize(left), left, Product);
      FitParenthesizes(Parenthesize(right), right, if IsAdditive(op) then Product else Exponential);
  }

  lemma FitParenthesizes(p: Expr, e: Expr, l: Level)
    requires Parenthesizes(p, e)
    ensures Parenthesizes(Fit(p, l), e)
  {
  }

  /** Parentheses cannot make a tree grammatical that the printer's do not, nor close a text that the printer's leave open. */
  lemma {:induction false} OtherParentheses(p: Expr, e: Expr, l: Level)
    requires Parenthesizes(p, e) && Grammatical(p, l)
    ensures Expressible(e)
    ensures TakesPercent(Fit(Parenthesize(e), l)) ==> TakesPercent(p)
    decreases p
  {
    if p.Group? && p.percents == 0 && Parenthesizes(p.inner, e) {
      OtherParentheses(p.inner, e, Sum);
    } else {
      match e
      case Number(_, _) =>
      case Constant(_) =>
      case Call(_, arg) =>
        OtherParentheses(p.arg, arg, Sum);
        ParenthesizedExactly(arg);
      case Group(inner, _) =>
        OtherParentheses(p.inner, inner, Sum);
      case Sign(_, operand) =>
        OtherParentheses(p.operand, operand, Signed);
        OtherSign(p, e, l);
      case Power(base, exponent) =>
        OtherParentheses(p.base, base, Signed);
        OtherParentheses(p.exponent, exponent, Exponential);
        OtherPower(p, e, l);
      case Binary(op, left, right) =>
        OtherParentheses(p.left, left, if IsAdditive(op) then Sum else Product);
        OtherParentheses(p.right, right, if IsAdditive(op) then Product else Exponential);
        OtherBinary(p, e, l);
    }
  }

  lemma OtherSign(p: Expr, e: Expr, l: Level)
    requires e.Sign? && p.Sign? && Grammatical(p, l) && Expressible(e.operand)
    ensures Fit(Parenthesize(e), l) == Parenthesize(e)
  {
    ParenthesizedExactly(e.operand);
    FitIsGrammatical(Parenthesize(e.operand), Signed);
  }

  lemma OtherPower(p: Expr, e: Expr, l: Level)
    requires e.Power? && p.Power? && Grammatical(p, l) && Expressible(e.base) && Expressible(e.exponent)
    ensures Fit(Parenthesize(e), l) == Parenthesize(e)
  {
    ParenthesizedExactly(e.base);
    ParenthesizedExactly(e.exponent);
    FitIsGrammatical(Parenthesize(e.base), Signed);
    FitIsGrammatical(Parenthesize(e.exponent), Exponential);
  }

  lemma OtherBinary(p: Expr, e: Expr, l: Level)
    requires e.Binary? && p.Binary? && p.op == e.op && Grammatical(p, l) && Expressible(e)
    ensures Fit(Parenthesize(e), l) == Parenthesize(e)
  {
    ParenthesizedExactly(e.left);
    ParenthesizedExactly(e.right);
    FitIsGrammatical(Parenthesize(e.left), Product);
    FitIsGrammatical(Parenthesize(e.right), Product);
    FitIsGrammatical(Parenthesize(e.right), Exponential);
  }

  /** A tree can be written with some parentheses exactly if it is expressible. */
  lemma ExpressibleExactly(e: Expr)
    ensures (exists p :: Parenthesizes(p, e) && Grammatical(p, Sum)) <==> Expressible(e)
  {
    if p :| Parenthesizes(p, e) && Grammatical(p, Sum) {
      OtherParentheses(p, e, Sum);
    }
    PrinterParenthesizes(e);
    ParenthesizedExactly(e);
  }

  lemma {:induction false} ParenthesesKeepValue<N>(ar: Arithmetic<N>, e: Expr)
    ensures Value(ar, Parenthesize(e)) == Value(ar, e)
  {
    match e
    case Number(_, _) =>
    case Constant(_) =>
    case Call(_, arg) =>
      ParenthesesKeepValue(ar, arg);
    case Group(inner, _) =>
      ParenthesesKeepValue(ar, inner);
    case Sign(_, operand) =>
      ParenthesesKeepValue(ar, operand);
    case Power(base, exponent) =>
      ParenthesesKeepValue(ar, base);
      ParenthesesKeepValue(ar, exponent);
    case Binary(_, left, right) =>
      ParenthesesKeepValue(ar, left);
      ParenthesesKeepValue(ar, right);
  }

  /** No two numbers or words in a row. */
  predicate Spaced(ts: seq<Token>) {
    forall i :: 0 < i < |ts| ==> !(IsOperand(ts[i - 1]) && IsOperand(ts[i]))
  }

  predicate AfterOperand(ts: seq<Token>) {
    Spaced(ts) && (ts == [] || !IsOperand(ts[0]))
  }

  lemma {:induction false} PercentsAreSpaced(k: nat, rest: seq<Token>)
    requires AfterOperand(rest)
    ensures AfterOperand(PercentsThen(k, rest))
  {
    if k > 0 {
      PercentsAreSpaced(k - 1, rest);
    }
  }

  lemma {:induction false} TreesAreSpaced(e: Expr, rest: seq<Token>)
    requires AfterOperand(rest)
    ensures Spaced(Then(e, rest))
  {
    match e
    case Number(_, k) =>
      PercentsAreSpaced(k, rest);
    case Constant(_) =>
    case Call(_, arg) =>
      TreesAreSpaced(arg, [Symbol(')')] + rest);
    case Group(inner, k) =>
      PercentsAreSpaced(k, rest);
      TreesAreSpaced(inner, [Symbol(')')] + PercentsThen(k, rest));
    case Sign(_, operand) =>
      TreesAreSpaced(operand, rest);
    case Power(base, exponent) =>
      TreesAreSpaced(exponent, rest);
      TreesAreSpaced(base, [Symbol('^')] + Then(exponent, rest));
    case Binary(op, left, right) =>
      TreesAreSpaced(right, rest);
      TreesAreSpaced(left, [Symbol(OperatorChar(op))] + Then(right, rest));
  }

  /** Every number in e is written the way the tokenizer reads numbers. */
  predicate NumbersWellSpelled(e: Expr) {
    match e
    case Number(text, _) => WellSpelled(Numeral(text))
    case Constant(_) => true
    case Call(_, arg) => NumbersWellSpelled(arg)
    case Group(inner, _) => NumbersWellSpelled(inner)
    case Sign(_, operand) => NumbersWellSpelled(operand)
    case Power(base, exponent) => NumbersWellSpelled(base) && NumbersWellSpelled(exponent)
    case Binary(_, left, right) => NumbersWellSpelled(left) && NumbersWellSpelled(right)
  }

  predicate Plain(s: string) {
    forall i :: 0 <= i < |s| ==> 'a' <= s[i] <= 'z'
  }

  lemma {:induction false} PlainIsWord(s: string)
    requires Plain(s)
    ensures WordRest(s) == ""
  {
    if s != "" {
      PlainIsWord(s[1..]);
    }
  }

  lemma NamesAreWellSpelled(name: string)
    requires name in CONSTANTS || name in FUNCTIONS
    ensures WellSpelled(Word(name)) && Printed(Word(name))
  {
    assert name != "" && Plain(name);
    PlainIsWord(name[1..]);
  }

  /** A token that trees are printed with: its words are the known names. */
  predicate Printed(t: Token) {
    WellSpelled(t) && (t.Word? ==> t.name in CONSTANTS || t.name in FUNCTIONS)
  }

  ghost predicate AllPrinted(ts: seq<Token>) {
    forall t :: t in ts ==> Printed(t)
  }

  lemma Concatenated(a: seq<Token>, b: seq<Token>)
    requires AllPrinted(a) && AllPrinted(b)
    ensures AllPrinted(a + b)
  {
  }

  lemma NumeralIsPrinted(text: string)
    requires WellSpelled(Numeral(text))
    ensures Printed(Numeral(text))
  {
  }

  lemma OnePrinted(t: Token)
    requires Printed(t)
    ensures AllPrinted([t])
  {
  }

  lemma SymbolsArePrinted(c: char)
    requires IsSymbol(c)
    ensures AllPrinted([Symbol(c)])
  {
  }

  lemma PercentsArePrinted(k: nat)
    ensures AllPrinted(Percents(k))
  {
  }

  lemma Between(a: seq<Token>, c: char, b: seq<Token>)
    requires AllPrinted(a) && AllPrinted(b) && IsSymbol(c)
    ensures AllPrinted(a + [Symbol(c)] + b)
  {
  }

  lemma {:induction false} TreesArePrinted(e: Expr)
    requires Grammatical(e, Sum) && NumbersWellSpelled(e)
    ensures AllPrinted(Yield(e))
  {
    hide AllPrinted, Printed, WellSpelled, Percents;
    match e
    case Number(text, k) =>
      NumeralIsPrinted(text);
      OnePrinted(Numeral(text));
      PercentsArePrinted(k);
      Concatenated([Numeral(text)], Percents(k));
    case Constant(name) =>
      NamesAreWellSpelled(name);
      OnePrinted(Word(name));
    case Call(fn, arg) =>
      NamesAreWellSpelled(fn);
      OnePrinted(Word(fn));
      SymbolsArePrinted('(');
      SymbolsArePrinted(')');
      TreesArePrinted(arg);
      Concatenated([Word(fn)], [Symbol('(')]);
      assert [Word(fn)] + [Symbol('(')] == [Word(fn), Symbol('(')];
      Concatenated([Word(fn), Symbol('(')], Yield(arg));
      Concatenated([Word(fn), Symbol('(')] + Yield(arg), [Symbol(')')]);
    case Group(inner, k) =>
      SymbolsArePrinted('(');
      PercentsArePrinted(k);
      TreesArePrinted(inner);
      Concatenated([Symbol('(')], Yield(inner));
      Between([Symbol('(')] + Yield(inner), ')', Percents(k));
    case Sign(minus, operand) =>
      LooserLevel(operand, Signed, Sum);
      TreesArePrinted(operand);
      SymbolsArePrinted(if minus then '-' else '+');
      Concatenated([Symbol(if minus then '-' else '+')], Yield(operand));
    case Power(base, exponent) =>
      LooserLevel(base, Signed, Sum);
      LooserLevel(exponent, Exponential, Sum);
      TreesArePrinted(base);
      TreesArePrinted(exponent);
      Between(Yield(base), '^', Yield(exponent));
    case Binary(op, left, right) =>
      LooserLevel(left, if IsAdditive(op) then Sum else Product, Sum);
      LooserLevel(right, if IsAdditive(op) then Product else Exponential, Sum);
      TreesArePrinted(left);
      TreesArePrinted(right);
      Between(Yield(left), OperatorChar(op), Yield(right));
  }

  lemma {:induction false} ParenthesesKeepSpelling(e: Expr)
    ensures NumbersWellSpelled(Parenthesize(e)) <==> NumbersWellSpelled(e)
  {
    match e
    case Number(_, _) =>
    case Constant(_) =>
    case Call(_, arg) =>
      ParenthesesKeepSpelling(arg);
    case Group(inner, _) =>
      ParenthesesKeepSpelling(inner);
    case Sign(_, operand) =>
      ParenthesesKeepSpelling(operand);
    case Power(base, exponent) =>
      ParenthesesKeepSpelling(base);
      ParenthesesKeepSpelling(exponent);
    case Binary(_, left, right) =>
      ParenthesesKeepSpelling(left);
      ParenthesesKeepSpelling(right);
  }

  /** The printer: the tokens of e with the parentheses it needs, spaced in any way at all. */
  function Print(e: Expr, gaps: seq<string>): string
    requires |gaps| == |Yield(Parenthesize(e))| + 1
  {
    Layout(Yield(Parenthesize(e)), gaps)
  }

  // ---------- main results ----------

  /** The calculator's answer for a text. */
  function TextAnswer<N>(ar: Arithmetic<N>, text: string): Option<N> {
    var ts :- Lex(text);
    Answer(ar, ts)
  }

  /** Printing an expressible tree, with any white space, and evaluating the text gives the value of the tree. */
  lemma PrintedValueIsAnswered<N>(ar: Arithmetic<N>, e: Expr, gaps: seq<string>)
    requires Expressible(e) && NumbersWellSpelled(e)
    requires |gaps| == |Yield(Parenthesize(e))| + 1
    requires forall i :: 0 <= i < |gaps| ==> Blank(gaps[i])
    ensures TextAnswer(ar, Print(e, gaps)) == if ar.isFinite(Value(ar, e)) then Some(Value(ar, e)) else None
  {
    var p := Parenthesize(e);
    ParenthesizedExactly(e);
    ParenthesesKeepSpelling(e);
    TreesArePrinted(p);
    assert forall t :: t in Yield(p) ==> Printed(t);
    TreesAreSpaced(p, []);
    ThenIsConcatenation(p, []);
    assert Yield(p) + [] == Yield(p);
    LayoutIsRead(Yield(p), gaps);
    DerivationExact(Yield(p), p);
    ParenthesesKeepValue(ar, e);
  }

  /** The excluded trees cannot be written: a binary % behind a number is rejected, with or without parentheses. */
  lemma NumberModuloIsRejected(a: string, b: string)
    ensures Derivation([Numeral(a), Symbol('%'), Numeral(b)]) == None
    ensures Derivation([Symbol('('), Numeral(a), Symbol(')'), Symbol('%'), Numeral(b)]) == None
  {
    var rest := [Numeral(b)];
    var bare := Number(a, 1);
    var enclosed := Group(Number(a, 0), 1);
    assert PercentsThen(1, rest) == [Symbol('%')] + PercentsThen(0, rest) == [Symbol('%'), Numeral(b)];
    assert Then(bare, rest) == [Numeral(a), Symbol('%'), Numeral(b)];
    assert Then(Number(a, 0), [Symbol(')')] + PercentsThen(1, rest)) == [Numeral(a), Symbol(')'), Symbol('%'), Numeral(b)];
    assert Then(enclosed, rest) == [Symbol('('), Numeral(a), Symbol(')'), Symbol('%'), Numeral(b)];
    SumIsRead(bare, rest);
    SumIsRead(enclosed, rest);
  }

  /** A name before a parenthesized number is read as a call exactly if it is in the function table. */
  lemma CallIsReadExactly(fn: string, a: string)
    ensures var ts := [Word(fn), Symbol('('), Numeral(a), Symbol(')')];
            Derivation(ts) == if fn in FUNCTIONS then Some(Call(fn, Number(a, 0))) else None
  {
    var ts, call := [Word(fn), Symbol('('), Numeral(a), Symbol(')')], Call(fn, Number(a, 0));
    assert Percents(0) == [] && Yield(call) == ts;
    if fn in FUNCTIONS {
      DerivationExact(ts, call);
    } else {
      UnknownCallIsNone(fn, ts);
    }
  }

  lemma UnknownCallIsNone(fn: string, ts: seq<Token>)
    requires |ts| > 1 && ts[0] == Word(fn) && ts[1] == Symbol('(') && fn !in FUNCTIONS
    ensures Derivation(ts) == None
  {
    hide ReadEnclosed;
    var rest := ts[1..];
    assert !StartsWith(ts, '+') && !StartsWith(ts, '-') && rest[0] == Symbol('(');
    assert ReadSigned(ts) == ReadPrimary(ts);
    if fn in CONSTANTS {
      assert ReadPower(ts) == Some((Constant(fn), rest));
      assert ReadProduct(ts) == Some((Constant(fn), rest));
      assert ReadSum(ts) == Some((Constant(fn), rest));
    } else {
      assert ReadPrimary(ts) == None;
      assert ReadPower(ts) == None;
      assert ReadSum(ts) == None;
    }
  }

  /** As the function table is a plain object, it has the name constructor, which is no mathematical function. */
  lemma ConstructorIsCallable(a: string)
    ensures Derivation([Word("constructor"), Symbol('('), Numeral(a), Symbol(')')]) == Some(Call("constructor", Number(a, 0)))
  {
    CallIsReadExactly("constructor", a);
  }

  method EvaluateText<N>(ar: Arithmetic<N>, text: string) returns (r: Option<N>)
    ensures r == TextAnswer(ar, text)
  {
    var ts := Tokenize(text);
    if ts.None? {
      return None;
    }
    r := EvaluateTokens(ar, ts.value);
  }
}
