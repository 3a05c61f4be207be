/** Whole queries that are answered: with units attached or compound, with a prefix, and some with their numbers. */
module CalculatorAnswers {
  import opened Prelude
  import opened CalculatorGrammar
  import opened CalculatorLexer
  import opened CalculatorDriver
  import Units = CalculatorUnits

  // ---------- prefixes ----------

  predicate IsPrefix(s: string) {
    s == "=" || Lower(s) in {"calc ", "calculate ", "convert "}
  }

  lemma LowerPrefix(s: string, text: string)
    ensures Lower(s) <= Lower(s + text) && |Lower(s)| == |s|
  {
    var a, b := Lower(s), Lower(s + text);
    assert forall i :: 0 <= i < |a| ==> a[i] == b[i];
  }

  lemma PrefixIsTakenOff(prefix: string, text: string)
    requires IsPrefix(prefix) && StartsPlainly(text)
    ensures NormalizeQuery(prefix + text) == text
  {
    var t := prefix + text;
    LowerPrefix(prefix, text);
    assert t[|prefix|..] == text && t[|t| - 1] == text[|text| - 1];
    if prefix != "=" {
      assert Lower(prefix)[0] == 'c';
      PrefixStart(prefix);
      assert Trimmed(t);
      PrefixesDiffer(Lower(prefix), Lower(t));
    } else {
      assert Trimmed(t) && t[0] == '=';
    }
  }

  lemma PrefixStart(prefix: string)
    requires prefix != "" && Lower(prefix)[0] == 'c'
    ensures !IsSpace(prefix[0]) && prefix[0] != '='
  {
  }

  lemma PrefixesDiffer(prefix: string, lower: string)
    requires prefix <= lower && prefix in {"calc ", "calculate ", "convert "}
    ensures "calc " <= lower <==> prefix == "calc "
    ensures "calculate " <= lower <==> prefix == "calculate "
    ensures "convert " <= lower <==> prefix == "convert "
  {
    assert "calc "[4] == ' ' && "calculate "[4] == 'u' && "calc "[1] == 'a' && "calculate "[1] == 'a' && "convert "[1] == 'o';
    assert prefix[1] == lower[1] && prefix[4] == lower[4];
  }

  /** A query with such a prefix is answered like the query without it. */
  lemma PrefixesAreIgnored(h: Host, prefix: string, text: string)
    requires Units.ProperTable(h.units) && IsPrefix(prefix) && StartsPlainly(text)
    ensures Evaluate(h, prefix + text) == Evaluate(h, text)
  {
    hide NormalizeQuery, UnitConversion, IsPrefix, StartsPlainly, ExpressionAnswer;
    PrefixIsTakenOff(prefix, text);
    NothingToTakeOff(text);
  }

  // ---------- a unit attached to its value ----------

  lemma {:induction false} SuffixIs(s: string, m: nat, k: nat)
    requires 1 <= m <= k <= |s| && !IsAttachedChar(s[m - 1]) && forall i :: m <= i < k ==> IsAttachedChar(s[i])
    ensures SuffixStart(s, k) == m
    decreases k
  {
    hide IsAttachedChar;
    if k > m {
      SuffixIs(s, m, k - 1);
    }
  }

  predicate IsAttached(value: string, unit: string) {
    && value != "" && unit != "" && !IsAttachedChar(value[|value| - 1])
    && CalculatorDriver.All(unit, IsAttachedChar) && IsWord(value + unit)
  }

  lemma AttachedCutIs(value: string, unit: string)
    requires IsAttached(value, unit)
    ensures AttachedCut(value + unit) == Some(Cut(value, unit))
  {
    var raw := value + unit;
    assert forall i :: |value| <= i < |raw| ==> raw[i] == unit[i - |value|];
    SuffixIs(raw, |value|, |raw|);
    hide IsAttachedChar;
    assert raw[..|value|] == value && raw[|value|..] == unit;
    forall i | 0 <= i < |value| ensures !IsLineEnd(value[i]) {
      assert raw[i] == value[i];
      if IsLineEnd(value[i]) {
        LineEndIsBlank(value[i]);
        assert false;
      }
    }
  }

  /** In a single word the unit is what stands behind the last character that no unit has. */
  lemma AttachedIsSplit(h: Host, value: string, unit: string)
    requires Units.ProperTable(h.units) && IsAttached(value, unit)
    ensures SplitValueAndUnit(h, value + unit) == Some(Cut(value, unit))
  {
    var raw := value + unit;
    AttachedCutIs(value, unit);
    OneWord(raw);
    assert IsWord(value) by {
      assert forall i :: 0 <= i < |value| ==> raw[i] == value[i];
    }
    assert IsWord(unit) by {
      assert forall i :: 0 <= i < |unit| ==> raw[|value| + i] == unit[i];
    }
    hide AttachedCut, IsAttached, SpacedCut, Words;
    TrimKeeps(raw);
    TrimKeeps(value);
    TrimKeeps(unit);
    NoSpacedCut(raw);
    assert SplitWords(h, raw, 1) == None;
  }

  lemma NoSpacedCut(raw: string)
    requires IsWord(raw)
    ensures SpacedCut(raw) == None
  {
  }

  lemma WordNotCut(left: string)
    requires IsWord(left)
    ensures OneLine(left) && !CutsItself(left) && Trimmed(left)
  {
    forall i | 0 <= i < |left| ensures !IsLineEnd(left[i]) {
      if IsLineEnd(left[i]) {
        LineEndIsBlank(left[i]);
        assert false;
      }
    }
  }

  /** "5km to m": a unit written against its value is converted as well, inches not excepted. */
  lemma AttachedQuestionIsAnswered(h: Host, value: string, unit: string, word: string, target: string, x: real)
    requires Units.ProperTable(h.units) && IsAttached(value, unit) && IsConversionWord(word) && IsTarget(target)
    requires StartsPlainly(Question(value + unit, word, target)) && |Question(value + unit, word, target)| <= LONGEST
    requires Evaluate(h, value) == Some(x) && SameGroup(h, unit, target) && Direct(h, x, unit, target).Some?
    ensures Evaluate(h, Question(value + unit, word, target)) == Direct(h, x, unit, target)
  {
    hide SplitWords, SplitValueAndUnit, ConversionFrom, NormalizeQuery, UnitLooksValid, Direct, SameGroup, CompoundConversion,
         Trim, Question, StartsPlainly, CutsItself, OneLine, IsConversionWord, Words, Evaluate;
    var left, q := value + unit, Question(value + unit, word, target);
    NothingToTakeOff(q);
    WordNotCut(left);
    QuestionIsCut(left, word, target);
    AttachedIsSplit(h, value, unit);
    AttachedTrims(value, unit);
    TrimKeeps(left);
    TrimKeeps(target);
    TrimKeeps(value);
    TrimKeeps(unit);
    PlainIsNonempty(q);
    assert UnitConversion(h, q) == Direct(h, x, unit, target);
    EvaluateConverts(h, q);
  }

  lemma AttachedTrims(value: string, unit: string)
    requires IsAttached(value, unit)
    ensures Trimmed(value) && Trimmed(unit)
  {
    var raw := value + unit;
    assert forall i :: 0 <= i < |value| ==> raw[i] == value[i];
    assert forall i :: 0 <= i < |unit| ==> raw[|value| + i] == unit[i];
  }

  lemma EvaluateConverts(h: Host, q: string)
    requires Units.ProperTable(h.units) && NormalizeQuery(q) == q && UnitConversion(h, q).Some?
    ensures Evaluate(h, q) == UnitConversion(h, q)
  {
  }

  // ---------- compound conversions ----------

  lemma NoEarlierTarget(left: string, word: string, target: string, n: nat)
    requires left != "" && Trimmed(left) && IsConversionWord(word) && IsWord(target) && 1 <= n < |left|
    ensures TargetAt(Question(left, word, target), n, IsCompoundChar).None?
  {
    var q, m := Question(left, word, target), |left|;
    QuestionParts(left, word, target);
    WordsAreTargetChars(word);
    hide TargetAt, IsSpace, IsCompoundChar, Question, BlankLength, IsConversionWord;
    BlankIsNoCompoundChar(q[m + 3]);
    assert q[m + 1] == q[m + 1..m + 3][0] && q[m + 2] == q[m + 1..m + 3][1];
    assert forall k :: 0 <= k <= m + 3 ==> q[k..][m + 3 - k] == q[m + 3];
    if TargetAt(q, n, IsCompoundChar).Some? {
      TargetMeans(q, n, IsCompoundChar);
      assert false;
    }
  }

  lemma CompoundIsCut(left: string, word: string, target: string)
    requires left != "" && Trimmed(left) && OneLine(left) && IsConversionWord(word)
    requires IsWord(target) && CalculatorDriver.All(target, IsCompoundChar)
    ensures ConversionFrom(Question(left, word, target), 1, IsCompoundChar) == Some(Cut(left, target))
  {
    hide TargetAt, IsCompoundChar, IsSpace, IsLineEnd, ConversionFrom, BlankLength, IsConversionWord;
    var q, m := Question(left, word, target), |left|;
    QuestionParts(left, word, target);
    forall n | 1 <= n < m ensures TargetAt(q, n, IsCompoundChar).None? {
      NoEarlierTarget(left, word, target, n);
    }
    assert !IsLineEnd(q[m - 1]) by { assert q[m - 1] == left[m - 1]; }
    SkipsTo(q, 1, m, IsCompoundChar);
    TargetAtWord(q, m, word, target);
    TurnAt(q, m, IsCompoundChar);
  }

  lemma CompoundTargetIsTarget(target: string)
    requires IsWord(target) && CalculatorDriver.All(target, IsCompoundChar)
    ensures IsTarget(target)
  {
  }

  /** A text with a value and a unit of at least two words has a blank. */
  lemma {:induction false} WordsHaveBlank(s: string)
    requires |Words(s)| >= 2
    ensures exists i :: 0 <= i < |s| && IsSpace(s[i])
  {
    if forall i :: 0 <= i < |s| ==> !IsSpace(s[i]) {
      if s != "" {
        OneWord(s);
      }
      assert false;
    }
  }

  /** What the compound conversion makes of a text once its cuts are known. */
  lemma CompoundFromCuts(h: Host, q: string, left: string, target: string, parts: Cut, x: real,
                         source: Units.UnitSpec, wanted: Units.UnitSpec)
    requires Units.ProperTable(h.units) && q != "" && |q| <= LONGEST && NormalizeQuery(q) == q
    requires ConversionFrom(q, 1, IsCompoundChar) == Some(Cut(left, target)) && Trim(left) == left && Trim(target) == target
    requires SplitValueAndUnit(h, left) == Some(parts) && Trim(parts.left) == parts.left && Trim(parts.right) == parts.right
    requires HasSeparator(h, left) && Evaluate(h, parts.left) == Some(x)
    requires Units.Spec(h.units, h.rewriteUnits(parts.right)) == Some(source)
    requires Units.Spec(h.units, h.rewriteUnits(target)) == Some(wanted)
    requires source.dimKey == wanted.dimKey && wanted.quantity.factor > 0.0
    requires h.arithmetic.isFinite(Units.Rescale(x, source.quantity.factor, wanted.quantity.factor))
    ensures CompoundConversion(h, q) == Units.Convert(x, source, wanted)
  {
    hide SplitValueAndUnit, ConversionFrom, NormalizeQuery, Trim, Evaluate, HasSeparator, Units.Spec;
  }

  lemma NoGroupIsCompound(h: Host, q: string, left: string, target: string, parts: Cut)
    requires Units.ProperTable(h.units) && q != "" && |q| <= LONGEST && NormalizeQuery(q) == q
    requires ConversionFrom(q, 1, IsTargetChar) == Some(Cut(left, target)) && Trim(left) == left && Trim(target) == target
    requires SplitValueAndUnit(h, left) == Some(parts) && Trim(parts.right) == parts.right
    requires !SameGroup(h, parts.right, target)
    ensures UnitConversion(h, q) == CompoundConversion(h, q)
  {
    hide SplitValueAndUnit, ConversionFrom, NormalizeQuery, Trim, Evaluate, SameGroup, CompoundConversion;
  }

  lemma ConvertibleHasSeparator(h: Host, left: string, i: nat, unit: string, x: real)
    requires Units.ProperTable(h.units) && Convertible(h, left, i, unit, x)
    ensures HasSeparator(h, left)
  {
    hide SplitWords, UnitLooksValid, Evaluate, CutAt, Words;
    GoodCutWithin(h, left, i);
    WordsHaveBlank(left);
  }

  lemma ConvertibleCuts(h: Host, left: string, i: nat, unit: string, x: real)
    requires Units.ProperTable(h.units) && Convertible(h, left, i, unit, x)
    ensures left != "" && Trimmed(left) && OneLine(left) && !CutsItself(left) && Trim(left) == left
    ensures exists value :: SplitValueAndUnit(h, left) == Some(Cut(value, unit)) && Evaluate(h, value) == Some(x)
                            && Trim(value) == value && Trim(unit) == unit
  {
    hide SplitWords, SplitValueAndUnit, UnitLooksValid, Evaluate, CutAt, Words, Trim, GoodCut, CutsItself, OneLine;
    GoodCutWithin(h, left, i);
    SplitAtShortest(h, left, i);
    CutsAreTrimmed(left, i);
    TrimKeeps(left);
    assert CutAt(left, i) == Cut(CutAt(left, i).left, unit);
  }

  /** A question about compound units of the same dimensions is answered with the same number of base units. */
  lemma CompoundIsAnswered(h: Host, left: string, i: nat, unit: string, word: string, target: string, x: real,
                           source: Units.UnitSpec, wanted: Units.UnitSpec)
    requires Units.ProperTable(h.units) && Convertible(h, left, i, unit, x) && IsConversionWord(word)
    requires IsWord(target) && CalculatorDriver.All(target, IsCompoundChar) && !SameGroup(h, unit, target)
    requires StartsPlainly(Question(left, word, target)) && |Question(left, word, target)| <= LONGEST
    requires Units.Spec(h.units, h.rewriteUnits(unit)) == Some(source) && Units.Spec(h.units, h.rewriteUnits(target)) == Some(wanted)
    requires source.dimKey == wanted.dimKey && wanted.quantity.factor > 0.0
    requires h.arithmetic.isFinite(Units.Rescale(x, source.quantity.factor, wanted.quantity.factor))
    ensures var answer := Evaluate(h, Question(left, word, target));
            answer.Some? && answer.value * wanted.quantity.factor == x * source.quantity.factor
  {
    hide Convertible, SplitValueAndUnit, ConversionFrom, NormalizeQuery, CompoundConversion, UnitConversion, Evaluate, SameGroup,
         Trim, Question, StartsPlainly, CutsItself, OneLine, IsConversionWord, IsTarget, HasSeparator, Units.Spec;
    var q := Question(left, word, target);
    CompoundTargetIsTarget(target);
    NothingToTakeOff(q);
    PlainIsNonempty(q);
    ConvertibleHasSeparator(h, left, i, unit, x);
    ConvertibleCuts(h, left, i, unit, x);
    var value :| SplitValueAndUnit(h, left) == Some(Cut(value, unit)) && Evaluate(h, value) == Some(x)
                 && Trim(value) == value && Trim(unit) == unit;
    QuestionIsCut(left, word, target);
    CompoundIsCut(left, word, target);
    TrimKeeps(target);
    NoGroupIsCompound(h, q, left, target, Cut(value, unit));
    CompoundFromCuts(h, q, left, target, Cut(value, unit), x, source, wanted);
    Units.ConvertsAmount(x, source, wanted);
    EvaluateConverts(h, q);
  }

  predicate IsPlainWord(h: Host, s: string) {
    IsWord(s) && !h.hasPer(s) && forall i :: 0 <= i < |s| ==> s[i] !in {'*', '/', '\U{00D7}', '\U{00B7}'}
  }

  /** Without a sign, a blank or a "per" on either side, nothing is taken for a compound conversion. */
  lemma PlainIsNotCompound(h: Host, left: string, word: string, target: string)
    requires Units.ProperTable(h.units) && IsPlainWord(h, left) && IsPlainWord(h, target) && IsConversionWord(word)
    requires CalculatorDriver.All(target, IsCompoundChar) && StartsPlainly(Question(left, word, target))
    ensures CompoundConversion(h, Question(left, word, target)).None?
  {
    hide SplitValueAndUnit, ConversionFrom, NormalizeQuery, Trim, StartsPlainly, OneLine, CutsItself, IsConversionWord, Evaluate,
         Question, IsSpace, IsCompoundChar;
    NothingToTakeOff(Question(left, word, target));
    WordNotCut(left);
    CompoundIsCut(left, word, target);
    TrimKeeps(left);
    TrimKeeps(target);
  }

  // ---------- a conversion with its numbers ----------

  /** Metres and kilometres, and the number 5. */
  function MetricHost(): Host {
    Host(Arithmetic(_ => 0.0, (x, y) => x + y, (x, y) => x - y, (x, y) => x * y, (x, y) => 0.0, (x, y) => 0.0, (x, y) => 0.0,
                    x => -x, 100.0, 0.0, 0.0, 0.0, (fn, x) => x, _ => true),
         s => if s == "5" then Some(5.0) else None,
         _ => false, s => s, u => u, _ => "",
         u => if u == "km" || u == "m" then "length" else "",
         (u, _) => if u == "km" then 1000.0 else 1.0,
         _ => None, u => u, _ => false)
  }

  lemma MetricWords()
    ensures IsWord("5") && IsWord("km") && IsWord("m") && IsConversionWord("to") && !IsConversionWord("km") && !IsConversionWord("m")
    ensures CalculatorDriver.All("km", IsTargetChar) && CalculatorDriver.All("m", IsTargetChar) && IsTarget("m")
    ensures StartsPlainly("5") && StartsPlainly("5 km to m")
  {
    assert Lower("to") == "to" && Lower("km") == "km" && Lower("m") == "m";
    assert Lower("5")[0] == '5' && Lower("5 km to m")[0] == '5';
  }

  /** Five kilometres are five thousand metres. */
  lemma FiveKilometres()
    ensures Units.ProperTable(MetricHost().units) && Evaluate(MetricHost(), "5 km to m") == Some(5000.0)
  {
    var h := MetricHost();
    MetricWords();
    hide StartsPlainly, IsTarget, IsTargetChar, IsConversionWord, Evaluate, IsWord;
    assert Question("5" + " " + "km", "to", "m") == "5 km to m";
    assert Units.ProperTable(h.units);
    NumberIsConvertible(h, "5", "km", 5.0);
    assert Direct(h, 5.0, "km", "m") == Some(5000.0);
    QuestionIsAnswered(h, "5" + " " + "km", 1, "km", "to", "m", 5.0);
  }
}
