/**
 Printed expressions as queries: whatever the spacing, the calculator finds no conversion in them and takes nothing off
 but the outer blanks, so it answers with the value of the tree.
 */
module CalculatorQueries {
  import opened Prelude
  import opened CalculatorGrammar
  import opened CalculatorLexer
  import opened CalculatorDriver
  import TextCodec
  import Units = CalculatorUnits

  const PREFIXES: seq<string> := ["calc ", "calculate ", "convert "]

  /** Within its own length the text differs from w. */
  predicate Differs(s: string, w: string) {
    exists k :: 0 <= k < |s| && k < |w| && Lower(s)[k] != w[k]
  }

  /** A spelling without blanks that neither starts a conversion word nor one of the prefixes that are taken off. */
  predicate Tame(s: string) {
    && IsWord(s) && Differs(s, "to") && Differs(s, "in") && s[0] != '='
    && Differs(s, PREFIXES[0]) && Differs(s, PREFIXES[1]) && Differs(s, PREFIXES[2])
  }

  // ---------- printed tokens are tame ----------

  lemma {:induction false} DigitsRestIsSuffix(s: string)
    ensures DigitsRest(s) == s[|s| - |DigitsRest(s)|..]
    ensures forall i :: 0 <= i < |s| - |DigitsRest(s)| ==> !IsSpace(s[i])
  {
    if s != "" && IsDigit(s[0]) {
      DigitsRestIsSuffix(s[1..]);
      assert forall i :: 1 <= i < |s| ==> s[i] == s[1..][i - 1];
    }
  }

  lemma {:induction false} NumeralHasNoBlanks(s: string, seenDot: bool)
    requires NumeralRest(s, seenDot) == ""
    ensures forall i :: 0 <= i < |s| ==> !IsSpace(s[i])
    decreases |s|
  {
    hide NumeralRest, IsSpace, DigitsRest, IsDigit;
    if s != "" {
      NumeralStart(s, seenDot);
      if IsDigit(s[0]) {
        NumeralHasNoBlanks(s[1..], seenDot);
      } else if s[0] == '.' && !seenDot {
        NumeralHasNoBlanks(s[1..], true);
      } else {
        NumeralHasNoBlanks(DigitsRest(s[2..]), seenDot);
        ExponentHasNoBlanks(s);
      }
      assert forall i :: 1 <= i < |s| ==> s[i] == s[1..][i - 1];
    }
  }

  lemma NumeralStart(s: string, seenDot: bool)
    requires s != "" && NumeralRest(s, seenDot) == ""
    ensures !IsSpace(s[0])
    ensures if IsDigit(s[0]) then NumeralRest(s[1..], seenDot) == ""
            else if s[0] == '.' && !seenDot then NumeralRest(s[1..], true) == ""
            else |s| > 1 && !IsSpace(s[1]) && NumeralRest(DigitsRest(s[2..]), seenDot) == ""
  {
    hide DigitsRest;
  }

  lemma ExponentHasNoBlanks(s: string)
    requires |s| > 1 && !IsSpace(s[0]) && !IsSpace(s[1])
    requires var rest := DigitsRest(s[2..]); forall i :: 0 <= i < |rest| ==> !IsSpace(rest[i])
    ensures forall i :: 0 <= i < |s| ==> !IsSpace(s[i])
  {
    hide IsSpace, DigitsRest;
    var rest := DigitsRest(s[2..]);
    DigitsRestIsSuffix(s[2..]);
    forall i | 2 <= i < |s| ensures !IsSpace(s[i]) {
      assert s[i] == s[2..][i - 2];
      if i >= |s| - |rest| {
        assert s[i] == rest[i - (|s| - |rest|)];
      }
    }
  }

  lemma DifferentStart(s: string, w: string, k: nat)
    requires k < |s| && k < |w| && Lower(s)[k] != w[k]
    ensures Differs(s, w)
  {
  }

  lemma NumeralIsWord(text: string)
    requires WellSpelled(Numeral(text))
    ensures IsWord(text)
  {
    hide NumeralRest;
    NumeralHasNoBlanks(text[1..], text[0] == '.');
    assert forall i :: 1 <= i < |text| ==> text[i] == text[1..][i - 1];
  }

  lemma NumeralIsTame(text: string)
    requires WellSpelled(Numeral(text))
    ensures Tame(text)
  {
    hide Differs, IsWord, NumeralRest;
    NumeralIsWord(text);
    assert Lower(text)[0] == text[0];
    DifferentStart(text, "to", 0);
    DifferentStart(text, "in", 0);
    DifferentStart(text, PREFIXES[0], 0);
    DifferentStart(text, PREFIXES[1], 0);
    DifferentStart(text, PREFIXES[2], 0);
  }

  /** Where a name first differs from the conversion words and the prefixes. */
  lemma NameDiffers(name: string)
    requires name in CONSTANTS || name in FUNCTIONS
    ensures |name| >= 1 && Plain(name)
    ensures name[0] != 'i' && (name[0] == 't' ==> |name| >= 2 && name[1] == 'a')
    ensures name[0] == 'c' ==>
              |name| >= 3 && (name[1] == 'e' || (name[1] == 'o' && (name[2] == 's' || (|name| >= 4 && name[2] == 'n' && name[3] == 's'))))
  {
  }

  lemma PlainDiffers(name: string, w: string, k: nat)
    requires Plain(name) && k < |name| && k < |w| && name[k] != w[k]
    ensures Differs(name, w)
  {
    assert Lower(name)[k] == name[k];
  }

  lemma PlainIsBlankless(name: string)
    requires Plain(name) && name != ""
    ensures IsWord(name) && name[0] != '='
  {
  }

  lemma NameIsTame(name: string)
    requires name in CONSTANTS || name in FUNCTIONS
    ensures Tame(name)
  {
    hide Differs, Plain, IsWord;
    NameDiffers(name);
    PlainIsBlankless(name);
    PlainDiffers(name, "to", if name[0] == 't' then 1 else 0);
    PlainDiffers(name, "in", 0);
    PlainDiffers(name, PREFIXES[0], if name[0] == 'c' then 1 else 0);
    PlainDiffers(name, PREFIXES[1], if name[0] == 'c' then 1 else 0);
    PlainDiffers(name, PREFIXES[2], if name[0] != 'c' then 0 else if name[1] == 'e' then 1 else if name[2] == 's' then 2 else 3);
  }

  lemma SymbolIsTame(c: char)
    requires IsSymbol(c)
    ensures Tame([c])
  {
    hide Differs;
    assert Lower([c])[0] == c;
    DifferentStart([c], "to", 0);
    DifferentStart([c], "in", 0);
    DifferentStart([c], PREFIXES[0], 0);
    DifferentStart([c], PREFIXES[1], 0);
    DifferentStart([c], PREFIXES[2], 0);
  }

  lemma PrintedIsTame(t: Token)
    requires Printed(t)
    ensures Tame(Spelling(t))
  {
    hide Tame;
    match t
    case Numeral(text) => NumeralIsTame(text);
    case Word(name) => NameIsTame(name);
    case Symbol(c) => SymbolIsTame(c);
  }

  // ---------- no conversion word in the text ----------

  /** No conversion word starts behind a blank. */
  ghost predicate NoKeyword(s: string) {
    forall p :: 1 <= p <= |s| && IsSpace(s[p - 1]) ==> !StartsWithKeyword(s[p..])
  }

  lemma DiffersStays(s: string, w: string, rest: string)
    requires Differs(s, w)
    ensures !(w <= Lower(s + rest)) && (|s + rest| >= |w| ==> Lower((s + rest)[..|w|]) != w)
  {
    var k :| 0 <= k < |s| && k < |w| && Lower(s)[k] != w[k];
    assert Lower(s + rest)[k] == Lower(s)[k];
    if |s + rest| >= |w| {
      assert Lower((s + rest)[..|w|])[k] == Lower(s)[k];
    }
  }

  lemma TameStays(s: string, rest: string)
    requires Tame(s)
    ensures !StartsWithKeyword(s + rest)
  {
    hide Differs;
    DiffersStays(s, "to", rest);
    DiffersStays(s, "in", rest);
  }

  lemma BlankIsNoKeyword(s: string)
    requires s != "" && IsSpace(s[0])
    ensures !StartsWithKeyword(s)
  {
    assert |s| >= 2 ==> Lower(s[..2])[0] != 't' && Lower(s[..2])[0] != 'i';
  }

  lemma KeywordBehindGap(gap: string, s: string)
    requires Blank(gap) && NoKeyword(s) && !StartsWithKeyword(s)
    ensures NoKeyword(gap + s) && !StartsWithKeyword(gap + s)
  {
    hide IsSpace, StartsWithKeyword;
    var all := gap + s;
    assert forall i :: 0 <= i < |gap| ==> all[i] == gap[i] && gap[i] in gap;
    forall p | 1 <= p <= |all| && IsSpace(all[p - 1]) ensures !StartsWithKeyword(all[p..]) {
      if p < |gap| {
        assert all[p..][0] == gap[p];
        BlankIsNoKeyword(all[p..]);
      } else {
        assert all[p..] == s[p - |gap|..];
        assert s[0..] == s;
      }
    }
    if gap != "" {
      BlankIsNoKeyword(all);
    } else {
      assert all == s;
    }
  }

  lemma KeywordBehindToken(token: string, s: string)
    requires Tame(token) && NoKeyword(s)
    ensures NoKeyword(token + s) && !StartsWithKeyword(token + s)
  {
    TameStays(token, s);
    hide IsSpace, StartsWithKeyword, Differs;
    var all := token + s;
    assert forall i :: 0 <= i < |token| ==> all[i] == token[i];
    forall p | 1 <= p <= |all| && IsSpace(all[p - 1]) ensures !StartsWithKeyword(all[p..]) {
      assert p - 1 >= |token|;
      assert all[p..] == s[p - |token|..];
    }
  }

  lemma {:induction false} LayoutHasNoKeyword(ts: seq<Token>, gaps: seq<string>)
    requires |gaps| == |ts| + 1 && (forall t :: t in ts ==> Printed(t)) && forall i :: 0 <= i < |gaps| ==> Blank(gaps[i])
    ensures NoKeyword(Layout(ts, gaps)) && !StartsWithKeyword(Layout(ts, gaps))
    decreases |ts|
  {
    hide NoKeyword, StartsWithKeyword, Printed, Blank, Tame;
    if ts == [] {
      NothingHasNoKeyword();
      KeywordBehindGap(gaps[0], "");
      assert gaps[0] + "" == gaps[0];
    } else {
      assert ts[0] in ts;
      PrintedIsTame(ts[0]);
      LayoutHasNoKeyword(ts[1..], gaps[1..]);
      var rest := Layout(ts[1..], gaps[1..]);
      KeywordBehindToken(Spelling(ts[0]), rest);
      KeywordBehindGap(gaps[0], Spelling(ts[0]) + rest);
    }
  }

  lemma NothingHasNoKeyword()
    ensures NoKeyword("") && !StartsWithKeyword("")
  {
  }

  lemma NoKeywordNoTarget(q: string, n: nat)
    requires NoKeyword(q) && 1 <= n <= |q|
    ensures TargetAt(q, n, IsTargetChar).None?
  {
    hide IsTargetChar, IsSpace, StartsWithKeyword, BlankLength;
    BlanksAt(q, n);
    var w := BlankLength(q[n..]);
    assert w > 0 ==> IsSpace(q[n + w - 1]);
  }

  lemma NoKeywordNoConversion(q: string)
    requires NoKeyword(q)
    ensures ConversionFrom(q, 1, IsTargetChar).None?
  {
    hide ConversionFrom, TargetAt, IsTargetChar, IsSpace, NoKeyword;
    forall n | 1 <= n < |q| ensures TargetAt(q, n, IsTargetChar).None? {
      NoKeywordNoTarget(q, n);
    }
    NeverCut(q, 1, IsTargetChar);
  }

  // ---------- the outer blanks ----------

  /** The gaps with nothing at the ends. */
  function Inner(gaps: seq<string>): (r: seq<string>)
    ensures |r| == |gaps|
  {
    if |gaps| < 2 then gaps else gaps[0 := ""][|gaps| - 1 := ""]
  }

  lemma {:induction false} LayoutLast(ts: seq<Token>, gaps: seq<string>)
    requires ts != [] && |gaps| == |ts| + 1
    ensures Layout(ts, gaps) == Layout(ts, gaps[|gaps| - 1 := ""]) + gaps[|gaps| - 1]
    decreases |ts|
  {
    var n := |gaps| - 1;
    var short := gaps[n := ""];
    assert short[1..] == gaps[1..][n - 1 := ""] && short[0] == gaps[0];
    if |ts| > 1 {
      LayoutLast(ts[1..], gaps[1..]);
    } else {
      assert Layout(ts[1..], gaps[1..]) == gaps[1] && Layout(ts[1..], short[1..]) == "";
    }
    var first := gaps[0] + Spelling(ts[0]);
    assert Layout(ts, gaps) == first + Layout(ts[1..], gaps[1..]);
    assert Layout(ts, short) == first + Layout(ts[1..], short[1..]);
  }

  lemma LayoutEnds(ts: seq<Token>, gaps: seq<string>)
    requires ts != [] && |gaps| == |ts| + 1
    ensures Layout(ts, gaps) == gaps[0] + Layout(ts, Inner(gaps)) + gaps[|gaps| - 1]
  {
    LayoutLast(ts, gaps);
    var short := gaps[|gaps| - 1 := ""];
    assert Inner(gaps) == short[0 := ""] && Inner(gaps)[1..] == short[1..] && short[0] == gaps[0];
    var rest := Spelling(ts[0]) + Layout(ts[1..], short[1..]);
    assert Layout(ts, Inner(gaps)) == "" + rest == rest;
  }

  lemma {:induction false} LayoutLastChar(ts: seq<Token>, gaps: seq<string>)
    requires ts != [] && |gaps| == |ts| + 1 && gaps[|ts|] == "" && forall t :: t in ts ==> IsWord(Spelling(t))
    ensures Layout(ts, gaps) != "" && !IsSpace(Layout(ts, gaps)[|Layout(ts, gaps)| - 1])
    decreases |ts|
  {
    hide IsSpace, Spelling;
    assert ts[0] in ts;
    var sp, rest := Spelling(ts[0]), Layout(ts[1..], gaps[1..]);
    if |ts| > 1 {
      LayoutLastChar(ts[1..], gaps[1..]);
    } else {
      assert rest == "" && sp + rest == sp;
    }
  }

  lemma LayoutIsTrimmed(ts: seq<Token>, gaps: seq<string>)
    requires ts != [] && |gaps| == |ts| + 1 && gaps[0] == gaps[|ts|] == "" && forall t :: t in ts ==> IsWord(Spelling(t))
    ensures Layout(ts, gaps) != "" && Trimmed(Layout(ts, gaps))
  {
    LayoutLastChar(ts, gaps);
    assert ts[0] in ts;
  }

  lemma {:induction false} FrontStrips(a: string, s: string)
    requires Blank(a) && s != "" && !IsSpace(s[0])
    ensures TextCodec.TrimFront(IsSpace, a + s) == s
  {
    if a != "" {
      assert a[0] in a && (a + s)[1..] == a[1..] + s;
      FrontStrips(a[1..], s);
    } else {
      assert a + s == s;
    }
  }

  lemma {:induction false} BackStrips(s: string, b: string)
    requires Blank(b) && s != "" && !IsSpace(s[|s| - 1])
    ensures TextCodec.TrimBack(IsSpace, s + b) == s
    decreases |b|
  {
    if b != "" {
      var front := b[..|b| - 1];
      assert b[|b| - 1] in b && (s + b)[..|s + b| - 1] == s + front;
      BackStrips(s, front);
    } else {
      assert s + b == s;
    }
  }

  lemma TrimStrips(a: string, s: string, b: string)
    requires Blank(a) && Blank(b) && s != "" && Trimmed(s)
    ensures Trim(a + s + b) == s
  {
    assert a + s + b == a + (s + b) && (s + b)[0] == s[0];
    FrontStrips(a, s + b);
    BackStrips(s, b);
  }

  // ---------- the result ----------

  lemma StartOfLayout(ts: seq<Token>, gaps: seq<string>)
    requires ts != [] && |gaps| == |ts| + 1 && gaps[0] == "" && Tame(Spelling(ts[0]))
    ensures var s := Layout(ts, gaps);
            s != "" && s[0] != '=' && !("calc " <= Lower(s)) && !("calculate " <= Lower(s)) && !("convert " <= Lower(s))
  {
    hide Differs;
    var sp, rest := Spelling(ts[0]), Layout(ts[1..], gaps[1..]);
    assert Layout(ts, gaps) == sp + rest;
    DiffersStays(sp, PREFIXES[0], rest);
    DiffersStays(sp, PREFIXES[1], rest);
    DiffersStays(sp, PREFIXES[2], rest);
  }

  /** The printed text as a query: it is not shortened, except by its outer blanks. */
  lemma PrintedIsPlain(e: Expr, gaps: seq<string>)
    requires Expressible(e) && NumbersWellSpelled(e)
    requires |gaps| == |Yield(Parenthesize(e))| + 1 && forall i :: 0 <= i < |gaps| ==> Blank(gaps[i])
    ensures var core := Print(e, Inner(gaps));
            StartsPlainly(core) && NoKeyword(core) && Trim(Print(e, gaps)) == core
  {
    hide Printed, Tame, NoKeyword, Trim, Yield, Parenthesize, Layout, Spelling;
    var ts := Yield(Parenthesize(e));
    YieldIsNonempty(Parenthesize(e));
    TokensArePrinted(e);
    forall t | t in ts ensures Tame(Spelling(t)) && IsWord(Spelling(t)) {
      PrintedIsTame(t);
      TameIsWord(Spelling(t));
    }
    assert ts[0] in ts;
    LayoutEnds(ts, gaps);
    LayoutIsTrimmed(ts, Inner(gaps));
    StartOfLayout(ts, Inner(gaps));
    LayoutHasNoKeyword(ts, Inner(gaps));
    TrimStrips(gaps[0], Layout(ts, Inner(gaps)), gaps[|gaps| - 1]);
  }

  lemma TameIsWord(s: string)
    requires Tame(s)
    ensures IsWord(s)
  {
  }

  lemma TokensArePrinted(e: Expr)
    requires Expressible(e) && NumbersWellSpelled(e)
    ensures forall t :: t in Yield(Parenthesize(e)) ==> Printed(t)
  {
    hide Printed;
    var p := Parenthesize(e);
    ParenthesizedExactly(e);
    ParenthesesKeepSpelling(e);
    TreesArePrinted(p);
  }

  lemma {:induction false} YieldIsNonempty(e: Expr)
    ensures |Yield(e)| > 0
  {
  }

  /** A tree printed with any blanks is answered with its value, unless the whole text is a number literal, too long, or
      not taken for an expression. */
  lemma PrintedQueryIsAnswered(h: Host, e: Expr, gaps: seq<string>)
    requires Units.ProperTable(h.units) && Expressible(e) && NumbersWellSpelled(e)
    requires |gaps| == |Yield(Parenthesize(e))| + 1 && forall i :: 0 <= i < |gaps| ==> Blank(gaps[i])
    requires h.rewrite(Print(e, Inner(gaps))) == Print(e, Inner(gaps))
    ensures var core, v := Print(e, Inner(gaps)), Value(h.arithmetic, e);
            Evaluate(h, Print(e, gaps)) ==
            if h.literal(core).Some? && h.arithmetic.isFinite(h.literal(core).value) then h.literal(core)
            else if |core| > LONGEST || !h.looksLikeExpression(core) || !h.arithmetic.isFinite(v) then None
            else Some(v)
  {
    hide Print, ConversionFrom, TextAnswer, Value, NoKeyword, StartsPlainly, NormalizeQuery, Trim, Expressible, NumbersWellSpelled,
         Yield, Parenthesize, Blank;
    var text, core := Print(e, gaps), Print(e, Inner(gaps));
    PrintedIsPlain(e, gaps);
    NormalizedTo(text, core);
    NothingToTakeOff(core);
    NoKeywordNoConversion(core);
    InnerIsBlank(gaps);
    PrintedValueIsAnswered(h.arithmetic, e, Inner(gaps));
    PlainIsNonempty(core);
    assert UnitConversion(h, core).None?;
  }

  lemma InnerIsBlank(gaps: seq<string>)
    requires forall i :: 0 <= i < |gaps| ==> Blank(gaps[i])
    ensures forall i :: 0 <= i < |Inner(gaps)| ==> Blank(Inner(gaps)[i])
  {
  }

  lemma NormalizedTo(text: string, core: string)
    requires Trim(text) == core && StartsPlainly(core)
    ensures NormalizeQuery(text) == core
  {
  }
}
