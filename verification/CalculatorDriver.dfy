/**
 How the Pulse calculator takes a query apart. A query may be a conversion "value unit to unit", whose value is a
 query again; finding out where the value ends means evaluating candidates. These functions call each other in a
 circle, but every round goes on with a shorter text.
 */
module CalculatorDriver {
  import opened Prelude
  import opened CalculatorGrammar
  import opened CalculatorParser
  import opened CalculatorLexer
  import TextCodec
  import Units = CalculatorUnits

  /** The tables and the number arithmetic that a query is answered with. */
  datatype Host = Host(
    arithmetic: Arithmetic<real>,
    literal: string -> Option<real>,
    looksLikeExpression: string -> bool,
    rewrite: string -> string,
    normalizeUnit: string -> string,
    dataRate: string -> string,
    group: string -> string,
    factor: (string, string) -> real,
    units: Units.Table,
    rewriteUnits: string -> string,
    hasPer: string -> bool)

  const LONGEST: nat := 128

  // ---------- texts ----------

  function BlankLength(s: string): (n: nat)
    ensures n <= |s| && (forall i :: 0 <= i < n ==> IsSpace(s[i])) && (n < |s| ==> !IsSpace(s[n]))
  {
    if s != "" && IsSpace(s[0]) then 1 + BlankLength(s[1..]) else 0
  }

  predicate Trimmed(s: string) {
    s == "" || (!IsSpace(s[0]) && !IsSpace(s[|s| - 1]))
  }

  function Trim(s: string): (r: string)
    ensures |r| <= |s| && Trimmed(r)
    ensures Trimmed(s) ==> r == s
  {
    assert Trimmed(s) ==> TextCodec.Trim(IsSpace, s) == s by {
      if Trimmed(s) {
        TextCodec.TrimKeeps(IsSpace, s);
      }
    }
    TextCodec.Trim(IsSpace, s)
  }

  function NormalizeQuery(text: string): (r: string)
    ensures |r| <= |text|
  {
    var t := Trim(text);
    if t == "" then ""
    else
      var t := if t[0] == '=' then Trim(t[1..]) else t;
      var lower := Lower(t);
      if "calc " <= lower then Trim(t[5..])
      else if "calculate " <= lower then Trim(t[10..])
      else if "convert " <= lower then Trim(t[8..])
      else t
  }

  predicate All(s: string, ok: char -> bool) {
    forall i :: 0 <= i < |s| ==> ok(s[i])
  }

  predicate IsUnitLetter(c: char) {
    || 'A' <= c <= 'Z' || 'a' <= c <= 'z' || c in "/^*"
    || c in {'\U{00B5}', '\U{039C}', '\U{03BC}', '\U{00B0}', '\U{00B2}', '\U{00B3}', '\U{00D7}', '\U{00B7}'}
  }

  /** What may stand behind the conversion word of a compound conversion, of any conversion, and of a value. */
  predicate IsCompoundChar(c: char) {
    IsUnitLetter(c) || IsDigit(c) || c == '.' || c == '-'
  }

  predicate IsSpacedChar(c: char) {
    IsCompoundChar(c) || c == '%'
  }

  predicate IsTargetChar(c: char) {
    IsSpacedChar(c) || IsSpace(c)
  }

  predicate IsAttachedChar(c: char) {
    IsUnitLetter(c) || c == '%'
  }

  predicate IsLineEnd(c: char) {
    c in {'\n', '\r', '\U{2028}', '\U{2029}'}
  }

  // ---------- where a query is cut ----------

  predicate StartsWithKeyword(s: string) {
    |s| >= 2 && (Lower(s[..2]) == "to" || Lower(s[..2]) == "in")
  }

  /** The target unit if a conversion word stands at n, between blanks. */
  function TargetAt(raw: string, n: nat, ok: char -> bool): Option<string>
    requires n <= |raw|
  {
    var w := BlankLength(raw[n..]);
    var rest := raw[n + w..];
    if w == 0 || !StartsWithKeyword(rest) then None
    else
      var after := rest[2..];
      var v := BlankLength(after);
      var target := after[v..];
      if v == 0 || target == "" || !All(target, ok) then None else Some(target)
  }

  datatype Cut = Cut(left: string, right: string)

  /** The first place from n on where a conversion word makes sense. */
  function ConversionFrom(raw: string, n: nat, ok: char -> bool): (r: Option<Cut>)
    requires 1 <= n
    ensures r.Some? ==> |r.value.left| < |raw|
    decreases |raw| - n
  {
    if n >= |raw| || IsLineEnd(raw[n - 1]) then None
    else match TargetAt(raw, n, ok)
      case Some(target) => Some(Cut(raw[..n], target))
      case None => ConversionFrom(raw, n + 1, ok)
  }

  predicate IsWord(s: string) {
    s != "" && forall i :: 0 <= i < |s| ==> !IsSpace(s[i])
  }

  function Words(s: string): (r: seq<string>)
    ensures forall i :: 0 <= i < |r| ==> IsWord(r[i])
    decreases |s|
  {
    if s == "" then []
    else if IsSpace(s[0]) then Words(s[1..])
    else
      var n := WordLength(s);
      [s[..n]] + Words(s[n..])
  }

  function WordLength(s: string): (n: nat)
    ensures n <= |s| && (forall i :: 0 <= i < n ==> !IsSpace(s[i])) && (n < |s| ==> IsSpace(s[n]))
  {
    if s != "" && !IsSpace(s[0]) then 1 + WordLength(s[1..]) else 0
  }

  lemma {:induction false} WordsFit(s: string)
    ensures |TextCodec.Join(Words(s), ' ')| <= |s|
    ensures s != "" && IsSpace(s[0]) ==> |TextCodec.Join(Words(s), ' ')| < |s|
    decreases |s|
  {
    if s == "" {
    } else if IsSpace(s[0]) {
      WordsFit(s[1..]);
    } else {
      var n := WordLength(s);
      WordsFit(s[n..]);
      assert ([s[..n]] + Words(s[n..]))[1..] == Words(s[n..]);
    }
  }

  /** The beginning of a list of words is shorter when joined. */
  lemma {:induction false} FewerWords(words: seq<string>, n: nat)
    requires 0 < n < |words| && forall i :: 0 <= i < |words| ==> words[i] != ""
    ensures |TextCodec.Join(words[..n], ' ')| < |TextCodec.Join(words, ' ')|
    decreases n
  {
    assert words[..n][0] == words[0] && words[..n][1..] == words[1..][..n - 1];
    if n > 1 {
      FewerWords(words[1..], n - 1);
    }
  }

  lemma CandidateIsShorter(raw: string, n: nat)
    requires 0 < n < |Words(raw)|
    ensures |TextCodec.Join(Words(raw)[..n], ' ')| < |raw|
  {
    WordsFit(raw);
    FewerWords(Words(raw), n);
  }

  /** Where the last run of blanks starts. */
  function LastBlank(s: string): (n: nat)
    requires exists i :: 0 <= i < |s| && IsSpace(s[i])
    ensures n < |s| && IsSpace(s[n])
  {
    var i := BlankFrom(s, |s|);
    BlankStart(s, i)
  }

  /** The last blank before k. */
  function BlankFrom(s: string, k: nat): (n: nat)
    requires k <= |s| && exists i :: 0 <= i < k && IsSpace(s[i])
    ensures n < k && IsSpace(s[n]) && forall i :: n < i < k ==> !IsSpace(s[i])
  {
    if IsSpace(s[k - 1]) then k - 1 else BlankFrom(s, k - 1)
  }

  function BlankStart(s: string, k: nat): (n: nat)
    requires k < |s| && IsSpace(s[k])
    ensures n <= k && forall i :: n <= i <= k ==> IsSpace(s[i])
  {
    if k > 0 && IsSpace(s[k - 1]) then BlankStart(s, k - 1) else k
  }

  /** value and unit separated by blanks: the unit is the last word. */
  function SpacedCut(raw: string): (r: Option<Cut>)
    ensures r.Some? ==> |r.value.left| < |raw|
  {
    if !(exists i :: 0 <= i < |raw| && IsSpace(raw[i])) then None
    else
      var n := LastBlank(raw);
      var unit := raw[n + BlankLength(raw[n..])..];
      if n == 0 || unit == "" || !All(unit, IsSpacedChar) || !All(raw[..n], c => !IsLineEnd(c)) then None
      else Some(Cut(raw[..n], unit))
  }

  function SuffixStart(s: string, k: nat): (n: nat)
    requires k <= |s|
    ensures n <= k
  {
    if k > 0 && IsAttachedChar(s[k - 1]) then SuffixStart(s, k - 1) else k
  }

  /** The unit follows the value at once. */
  function AttachedCut(raw: string): (r: Option<Cut>)
    ensures r.Some? ==> |r.value.left| < |raw|
  {
    var k := SuffixStart(raw, |raw|);
    var n := if k == 0 then 1 else k;
    if n >= |raw| || !All(raw[..n], c => !IsLineEnd(c)) then None else Some(Cut(raw[..n], raw[n..]))
  }

  // ---------- the circle ----------

  ghost predicate UnitLooksValid(h: Host, unit: string)
    requires Units.ProperTable(h.units)
  {
    h.dataRate(unit) != "" || h.group(unit) != "" || Units.ParseUnits(h.units, h.rewriteUnits(unit)).Some?
  }

  /** The last i words of a text, and those before them. */
  function CutAt(raw: string, i: nat): Cut
    requires 1 <= i < |Words(raw)|
  {
    var words := Words(raw);
    Cut(TextCodec.Join(words[..|words| - i], ' '), TextCodec.Join(words[|words| - i..], ' '))
  }

  /** A unit of at least i words for which the words before it have a value, taking one more word each time. */
  ghost function SplitWords(h: Host, raw: string, i: nat): (r: Option<Cut>)
    requires Units.ProperTable(h.units) && 1 <= i
    ensures r.Some? ==> |r.value.left| < |raw|
    decreases |raw|, 0, |Words(raw)| - i
  {
    if i >= |Words(raw)| then None
    else
      CandidateIsShorter(raw, |Words(raw)| - i);
      var cut := CutAt(raw, i);
      if UnitLooksValid(h, cut.right) && Evaluate(h, cut.left).Some? then Some(cut)
      else SplitWords(h, raw, i + 1)
  }

  ghost function SplitValueAndUnit(h: Host, text: string): (r: Option<Cut>)
    requires Units.ProperTable(h.units)
    ensures r.Some? ==> |r.value.left| < |text|
    decreases |text|, 1
  {
    var raw := Trim(text);
    if raw == "" then None
    else match SplitWords(h, raw, 1)
      case Some(cut) => Some(cut)
      case None =>
        match SpacedCut(raw)
        case Some(cut) => Some(Cut(Trim(cut.left), Trim(cut.right)))
        case None =>
          var cut :- AttachedCut(raw);
          Some(Cut(Trim(cut.left), Trim(cut.right)))
  }

  predicate HasSeparator(h: Host, s: string) {
    h.hasPer(s) || exists i :: 0 <= i < |s| && (IsSpace(s[i]) || s[i] in {'*', '/', '\U{00D7}', '\U{00B7}'})
  }

  /** Both units read as compound ones. */
  ghost function CompoundConversion(h: Host, text: string): Option<real>
    requires Units.ProperTable(h.units)
    decreases |text|, 2
  {
    var raw := NormalizeQuery(text);
    if raw == "" || |raw| > LONGEST then None
    else
      var cut :- ConversionFrom(raw, 1, IsCompoundChar);
      var left, target := Trim(cut.left), Trim(cut.right);
      if !HasSeparator(h, left) && !HasSeparator(h, target) then None
      else
        var parts :- SplitValueAndUnit(h, left);
        var source :- Units.Spec(h.units, h.rewriteUnits(Trim(parts.right)));
        var wanted :- Units.Spec(h.units, h.rewriteUnits(target));
        if source.dimKey != wanted.dimKey then None
        else
          var value :- Evaluate(h, Trim(parts.left));
          Units.SpecIsProper(h.units, h.rewriteUnits(target));
          var r :- Units.Convert(value, source, wanted);
          if h.arithmetic.isFinite(r) then Some(r) else None
  }

  function UnitName(h: Host, unit: string): string {
    if h.dataRate(unit) != "" then h.dataRate(unit) else h.normalizeUnit(unit)
  }

  function GroupOf(h: Host, unit: string): string {
    if h.dataRate(unit) != "" then "data_rate" else h.group(h.normalizeUnit(unit))
  }

  predicate SameGroup(h: Host, source: string, target: string) {
    GroupOf(h, source) != "" && GroupOf(h, source) == GroupOf(h, target)
  }

  /** A value of one unit in another one of its group; None if there is no finite result. */
  function Direct(h: Host, value: real, source: string, target: string): Option<real> {
    var from, to, group := UnitName(h, source), UnitName(h, target), GroupOf(h, source);
    var r :- if group == "temperature" then Units.ConvertTemperature(value, from, to)
             else if h.factor(from, group) <= 0.0 || h.factor(to, group) <= 0.0 then None
             else Some(Units.Rescale(value, h.factor(from, group), h.factor(to, group)));
    if h.arithmetic.isFinite(r) then Some(r) else None
  }

  ghost function UnitConversion(h: Host, text: string): Option<real>
    requires Units.ProperTable(h.units)
    decreases |text|, 3
  {
    var raw := NormalizeQuery(text);
    if raw == "" || |raw| > LONGEST then None
    else
      var cut :- ConversionFrom(raw, 1, IsTargetChar);
      var left, target := Trim(cut.left), Trim(cut.right);
      var parts :- SplitValueAndUnit(h, left);
      var source := Trim(parts.right);
      if !SameGroup(h, source, target) then CompoundConversion(h, raw)
      else
        var value :- Evaluate(h, Trim(parts.left));
        match Direct(h, value, source, target)
        case Some(r) => Some(r)
        case None => CompoundConversion(h, raw)
  }

  function ExpressionAnswer(h: Host, expr: string): Option<real> {
    var q := NormalizeQuery(expr);
    if q == "" || |q| > LONGEST || !h.looksLikeExpression(q) then None
    else TextAnswer(h.arithmetic, h.rewrite(expr))
  }

  /** The calculator's answer to a query. */
  ghost function Evaluate(h: Host, text: string): Option<real>
    requires Units.ProperTable(h.units)
    decreases |text|, 4
  {
    var expr := NormalizeQuery(text);
    match UnitConversion(h, expr)
    case Some(r) => Some(r)
    case None =>
      if h.literal(expr).Some? && h.arithmetic.isFinite(h.literal(expr).value) then h.literal(expr)
      else ExpressionAnswer(h, expr)
  }

  // ---------- the loop and the calls of the source ----------

  method LooksValid(h: Host, unit: string) returns (ok: bool)
    requires Units.ProperTable(h.units)
    ensures ok == UnitLooksValid(h, unit)
  {
    if h.dataRate(unit) != "" || h.group(unit) != "" {
      return true;
    }
    var spec := Units.ParseUnitExpression(h.units, h.rewriteUnits(unit));
    return spec.Some?;
  }

  method Split(h: Host, text: string) returns (r: Option<Cut>)
    requires Units.ProperTable(h.units)
    ensures r == SplitValueAndUnit(h, text)
    decreases |text|, 1
  {
    hide Evaluate, UnitLooksValid, AttachedCut, SpacedCut, Words;
    var raw := Trim(text);
    if |raw| == 0 {
      return None;
    }
    var words, i := Words(raw), 1;
    while i < |words|
      invariant 1 <= i
      invariant SplitWords(h, raw, i) == SplitWords(h, raw, 1)
    {
      var n := |words| - i;
      CandidateIsShorter(raw, n);
      var value, unit := TextCodec.Join(words[..n], ' '), TextCodec.Join(words[n..], ' ');
      var valid := LooksValid(h, unit);
      if valid {
        var check := EvaluateQuery(h, value);
        if check.Some? {
          return Some(Cut(value, unit));
        }
      }
      i := i + 1;
    }
    assert SplitWords(h, raw, 1).None?;
    var spaced := SpacedCut(raw);
    if spaced.Some? {
      return Some(Cut(Trim(spaced.value.left), Trim(spaced.value.right)));
    }
    var attached := AttachedCut(raw);
    if attached.Some? {
      return Some(Cut(Trim(attached.value.left), Trim(attached.value.right)));
    }
    return None;
  }

  method EvaluateCompoundConversion(h: Host, text: string) returns (r: Option<real>)
    requires Units.ProperTable(h.units)
    ensures r == CompoundConversion(h, text)
    decreases |text|, 2
  {
    hide Evaluate, SplitValueAndUnit, ConversionFrom, NormalizeQuery;
    var raw := NormalizeQuery(text);
    if |raw| == 0 || |raw| > LONGEST {
      return None;
    }
    var cut :- ConversionFrom(raw, 1, IsCompoundChar);
    var left, target := Trim(cut.left), Trim(cut.right);
    if !HasSeparator(h, left) && !HasSeparator(h, target) {
      return None;
    }
    var parts :- Split(h, left);
    var source :- Units.ParseUnitExpression(h.units, h.rewriteUnits(Trim(parts.right)));
    var wanted :- Units.ParseUnitExpression(h.units, h.rewriteUnits(target));
    if source.dimKey != wanted.dimKey {
      return None;
    }
    var value :- EvaluateQuery(h, Trim(parts.left));
    Units.SpecIsProper(h.units, h.rewriteUnits(target));
    var result := Units.Convert(value, source, wanted).value;
    return if h.arithmetic.isFinite(result) then Some(result) else None;
  }

  method EvaluateUnitConversion(h: Host, text: string) returns (r: Option<real>)
    requires Units.ProperTable(h.units)
    ensures r == UnitConversion(h, text)
    decreases |text|, 3
  {
    hide Evaluate, SplitValueAndUnit, ConversionFrom, CompoundConversion, NormalizeQuery;
    var raw := NormalizeQuery(text);
    if |raw| == 0 || |raw| > LONGEST {
      return None;
    }
    var cut :- ConversionFrom(raw, 1, IsTargetChar);
    var left, target := Trim(cut.left), Trim(cut.right);
    var parts :- Split(h, left);
    var source := Trim(parts.right);
    if !SameGroup(h, source, target) {
      r := EvaluateCompoundConversion(h, raw);
      return;
    }
    var value :- EvaluateQuery(h, Trim(parts.left));
    r := Direct(h, value, source, target);
    if r.None? {
      r := EvaluateCompoundConversion(h, raw);
    }
  }

  method EvaluateQuery(h: Host, text: string) returns (r: Option<real>)
    requires Units.ProperTable(h.units)
    ensures r == Evaluate(h, text)
    decreases |text|, 4
  {
    hide UnitConversion, NormalizeQuery;
    var expr := NormalizeQuery(text);
    r := EvaluateUnitConversion(h, expr);
    if r.Some? {
      return;
    }
    r := h.literal(expr);
    if r.Some? && h.arithmetic.isFinite(r.value) {
      return;
    }
    var q := NormalizeQuery(expr);
    if |q| == 0 || |q| > LONGEST || !h.looksLikeExpression(q) {
      return None;
    }
    r := EvaluateText(h.arithmetic, h.rewrite(expr));
  }

  // ---------- the cut between value and unit ----------

  /** The last i words are a unit, and those before them have a value. */
  ghost predicate GoodCut(h: Host, raw: string, i: nat)
    requires Units.ProperTable(h.units)
  {
    1 <= i < |Words(raw)| && UnitLooksValid(h, CutAt(raw, i).right) && Evaluate(h, CutAt(raw, i).left).Some?
  }

  /** The unit found is the shortest one for which there is a value before it; none is found only if there is none. */
  lemma {:induction false} SplitIsShortest(h: Host, raw: string, i: nat)
    requires Units.ProperTable(h.units) && 1 <= i
    ensures match SplitWords(h, raw, i)
            case Some(cut) =>
              exists k :: i <= k && GoodCut(h, raw, k) && cut == CutAt(raw, k) && forall j :: i <= j < k ==> !GoodCut(h, raw, j)
            case None => forall j :: i <= j ==> !GoodCut(h, raw, j)
    decreases |Words(raw)| - i
  {
    hide Evaluate, UnitLooksValid, CutAt;
    if i < |Words(raw)| {
      SplitIsShortest(h, raw, i + 1);
      if SplitWords(h, raw, i).Some? && !GoodCut(h, raw, i) {
        var k :| i + 1 <= k && GoodCut(h, raw, k) && SplitWords(h, raw, i + 1).value == CutAt(raw, k)
                 && forall j :: i + 1 <= j < k ==> !GoodCut(h, raw, j);
        assert forall j :: i <= j < k ==> !GoodCut(h, raw, j);
      }
    }
  }

  lemma {:induction false} ShortestIsSplit(h: Host, raw: string, i: nat, k: nat)
    requires Units.ProperTable(h.units) && 1 <= i <= k && GoodCut(h, raw, k)
    requires forall j :: i <= j < k ==> !GoodCut(h, raw, j)
    ensures SplitWords(h, raw, i) == Some(CutAt(raw, k))
    decreases k - i
  {
    hide Evaluate, UnitLooksValid, CutAt;
    if i < k {
      assert !GoodCut(h, raw, i);
      ShortestIsSplit(h, raw, i + 1, k);
    }
  }

  lemma {:induction false} JoinedWordsAreTrimmed(words: seq<string>)
    requires words != [] && forall i :: 0 <= i < |words| ==> IsWord(words[i])
    ensures TextCodec.Join(words, ' ') != "" && Trimmed(TextCodec.Join(words, ' '))
  {
    if |words| > 1 {
      JoinedWordsAreTrimmed(words[1..]);
    }
  }

  lemma CutsAreTrimmed(raw: string, i: nat)
    requires 1 <= i < |Words(raw)|
    ensures Trim(CutAt(raw, i).left) == CutAt(raw, i).left && Trim(CutAt(raw, i).right) == CutAt(raw, i).right
  {
    hide Trim, Words, IsWord, Trimmed;
    var words := Words(raw);
    JoinedWordsAreTrimmed(words[..|words| - i]);
    JoinedWordsAreTrimmed(words[|words| - i..]);
    TrimKeeps(CutAt(raw, i).left);
    TrimKeeps(CutAt(raw, i).right);
  }

  // ---------- the cut before the conversion word ----------

  predicate IsConversionWord(s: string) {
    Lower(s) == "to" || Lower(s) == "in"
  }

  /** "left to target", with either conversion word */
  function Question(left: string, word: string, target: string): string {
    left + " " + word + " " + target
  }

  predicate IsTarget(target: string) {
    target != "" && Trimmed(target) && All(target, IsTargetChar)
  }

  predicate OneLine(s: string) {
    forall i :: 0 <= i < |s| ==> !IsLineEnd(s[i])
  }

  /** A conversion word stands alone at p, and nothing behind it could not be part of a unit. */
  predicate CutsAt(left: string, p: nat) {
    && 1 <= p <= |left| - 2 && IsSpace(left[p - 1]) && IsConversionWord(left[p..p + 2])
    && (p + 2 < |left| ==> IsSpace(left[p + 2])) && All(left[p + 2..], IsTargetChar)
  }

  /** left itself would be cut at one of its words, were it followed by more of a unit. */
  predicate CutsItself(left: string) {
    exists p :: 1 <= p <= |left| - 2 && CutsAt(left, p)
  }

  lemma {:induction false} BlankLengthIs(blanks: string, rest: string)
    requires (forall i :: 0 <= i < |blanks| ==> IsSpace(blanks[i])) && (rest != "" ==> !IsSpace(rest[0]))
    ensures BlankLength(blanks + rest) == |blanks|
  {
    if blanks != "" {
      assert (blanks + rest)[1..] == blanks[1..] + rest;
      BlankLengthIs(blanks[1..], rest);
    } else {
      assert blanks + rest == rest;
    }
  }

  predicate IsLetter(c: char) {
    'A' <= c <= 'Z' || 'a' <= c <= 'z'
  }

  lemma LettersAreTargetChars(c: char)
    requires IsLetter(c)
    ensures IsTargetChar(c) && !IsSpace(c)
  {
  }

  lemma WordsAreTargetChars(word: string)
    requires IsConversionWord(word)
    ensures |word| == 2 && All(word, IsTargetChar) && IsWord(word)
  {
    hide IsSpace;
    forall i | 0 <= i < |word| ensures IsLetter(word[i]) {
      assert Lower(word)[i] in {'t', 'o', 'i', 'n'};
    }
    forall i | 0 <= i < |word| ensures IsTargetChar(word[i]) && !IsSpace(word[i]) {
      LettersAreTargetChars(word[i]);
    }
  }

  /** Where a conversion word stands between blanks, there is a target if all behind it may be part of a unit. */
  lemma TargetBehind(q: string, p: nat, ok: char -> bool)
    requires 2 <= p <= |q| - 4 && IsSpace(q[p - 1]) && IsConversionWord(q[p..p + 2]) && IsSpace(q[p + 2])
    requires !IsSpace(q[|q| - 1]) && All(q[p + 2..], ok)
    ensures TargetAt(q, p - 1, ok).Some?
  {
    var rest, after := q[p..], q[p + 2..];
    WordsAreTargetChars(q[p..p + 2]);
    BlankLengthIs([q[p - 1]], rest);
    assert q[p - 1..] == [q[p - 1]] + rest && rest[..2] == q[p..p + 2] && rest[2..] == after;
    assert q[p - 1..][1..] == rest && q[p - 1 + 1..] == rest;
    assert !IsSpace(after[|after| - 1]);
  }

  lemma KeywordLength(s: string)
    ensures StartsWithKeyword(s) ==> |s| >= 2
  {
  }

  lemma TargetIs(q: string, n: nat, ok: char -> bool)
    requires n <= |q| && TargetAt(q, n, ok).Some?
    ensures var p := n + BlankLength(q[n..]);
            && n < p <= |q| - 2 && StartsWithKeyword(q[p..])
            && var k := p + 2 + BlankLength(q[p + 2..]);
               p + 2 < k < |q| && TargetAt(q, n, ok).value == q[k..] && All(q[k..], ok)
  {
    hide IsSpace, StartsWithKeyword, BlankLength;
    var p := n + BlankLength(q[n..]);
    KeywordLength(q[p..]);
    var after := q[p..][2..];
    assert after == q[p + 2..] && after[BlankLength(after)..] == q[p + 2 + BlankLength(after)..];
  }

  lemma BlanksAt(q: string, n: nat)
    requires n <= |q|
    ensures forall i :: n <= i < n + BlankLength(q[n..]) ==> IsSpace(q[i])
  {
    assert forall i :: n <= i < |q| ==> q[i] == q[n..][i - n];
  }

  lemma KeywordAt(q: string, p: nat)
    requires p <= |q| - 2 && StartsWithKeyword(q[p..])
    ensures IsConversionWord(q[p..p + 2]) && !IsSpace(q[p]) && !IsSpace(q[p + 1])
  {
    hide IsSpace;
    assert q[p..][..2] == q[p..p + 2];
    WordsAreTargetChars(q[p..p + 2]);
    assert q[p..p + 2][0] == q[p] && q[p..p + 2][1] == q[p + 1];
  }

  /** The word behind the blanks at n, if there is a target there. */
  lemma TargetMeans(q: string, n: nat, ok: char -> bool)
    requires n <= |q| && TargetAt(q, n, ok).Some?
    ensures var p := n + BlankLength(q[n..]);
            && n < p <= |q| - 4 && (forall i :: n <= i < p ==> IsSpace(q[i])) && IsConversionWord(q[p..p + 2])
            && !IsSpace(q[p]) && !IsSpace(q[p + 1]) && IsSpace(q[p + 2])
            && var k := p + 2 + BlankLength(q[p + 2..]);
               && k < |q| && TargetAt(q, n, ok).value == q[k..] && All(q[k..], ok)
               && forall i :: p + 2 <= i < k ==> IsSpace(q[i])
  {
    hide TargetAt, IsSpace, All, StartsWithKeyword, IsConversionWord, BlankLength;
    TargetIs(q, n, ok);
    var p := n + BlankLength(q[n..]);
    BlanksAt(q, n);
    BlanksAt(q, p + 2);
    KeywordAt(q, p);
  }

  lemma {:induction false} SkipsTo(q: string, n: nat, m: nat, ok: char -> bool)
    requires 1 <= n <= m <= |q| && OneLine(q[..m])
    requires forall i :: n <= i < m ==> TargetAt(q, i, ok).None?
    ensures ConversionFrom(q, n, ok) == ConversionFrom(q, m, ok)
    decreases m - n
  {
    hide TargetAt, IsLineEnd;
    if n < m {
      assert !IsLineEnd(q[n - 1]) by { assert q[..m][n - 1] == q[n - 1]; }
      SkipsTo(q, n + 1, m, ok);
    }
  }

  /** A cut is never made behind a place where there is a target. */
  lemma {:induction false} CutsNoLater(q: string, n: nat, k: nat, ok: char -> bool)
    requires 1 <= n <= k < |q| && TargetAt(q, k, ok).Some?
    ensures ConversionFrom(q, n, ok).Some? ==> |ConversionFrom(q, n, ok).value.left| <= k
    decreases k - n
  {
    hide TargetAt, IsLineEnd;
    if n < k {
      CutsNoLater(q, n + 1, k, ok);
    }
  }

  lemma {:induction false} StopsAtLineEnd(q: string, n: nat, k: nat, ok: char -> bool)
    requires 1 <= n && n - 1 <= k < |q| && IsLineEnd(q[k])
    ensures ConversionFrom(q, n, ok).Some? ==> |ConversionFrom(q, n, ok).value.left| <= k
    decreases |q| - n
  {
    hide TargetAt;
    if n < |q| && !IsLineEnd(q[n - 1]) {
      StopsAtLineEnd(q, n + 1, k, ok);
    }
  }

  lemma QuestionParts(left: string, word: string, target: string)
    requires left != "" && Trimmed(left) && IsConversionWord(word) && target != "" && Trimmed(target)
    ensures var q, m := Question(left, word, target), |left|;
            && |q| == m + 4 + |target| && q[..m] == left && q[m..] == " " + word + " " + target && q[m + 4..] == target
            && (forall i :: 0 <= i < m ==> q[i] == left[i]) && IsSpace(q[m]) && q[m + 1..m + 3] == word && IsSpace(q[m + 3])
            && !IsSpace(q[m - 1]) && !IsSpace(q[|q| - 1]) && q[0] == left[0] && Trimmed(q)
  {
    WordsAreTargetChars(word);
    var q := Question(left, word, target);
    assert q[|q| - 1] == target[|target| - 1];
  }

  /** The rest of a question behind any place in left. */
  lemma RestOfQuestion(left: string, word: string, target: string, p: nat)
    requires IsConversionWord(word) && All(target, IsTargetChar) && p <= |left|
    ensures All(Question(left, word, target)[p..], IsTargetChar) <==> All(left[p..], IsTargetChar)
  {
    WordsAreTargetChars(word);
    var q := Question(left, word, target);
    assert q[p..] == left[p..] + " " + word + " " + target;
    var rest, tail := left[p..], " " + word + " " + target;
    assert q[p..] == rest + tail;
    assert All(tail, IsTargetChar) by {
      forall i | 0 <= i < |tail| ensures IsTargetChar(tail[i]) {
        if i == 0 || i == 3 {
        } else if i < 3 {
          assert tail[i] == word[i - 1];
        } else {
          assert tail[i] == target[i - 4];
        }
      }
    }
    hide IsTargetChar, IsConversionWord;
    assert forall i :: 0 <= i < |rest| ==> (rest + tail)[i] == rest[i];
    assert forall i :: |rest| <= i < |rest + tail| ==> (rest + tail)[i] == tail[i - |rest|];
  }

  lemma CutsItselfEarlier(left: string, word: string, target: string, p: nat)
    requires left != "" && Trimmed(left) && IsConversionWord(word) && IsTarget(target)
    requires 1 <= p <= |left| - 2 && CutsAt(left, p)
    ensures 2 <= p && TargetAt(Question(left, word, target), p - 1, IsTargetChar).Some?
  {
    hide TargetAt, IsTargetChar, IsConversionWord, IsSpace, Question;
    var q := Question(left, word, target);
    QuestionParts(left, word, target);
    assert p >= 2;
    assert q[p..p + 2] == left[p..p + 2];
    RestOfQuestion(left, word, target, p + 2);
    TargetBehind(q, p, IsTargetChar);
  }

  /** Behind blanks, all is part of a target. */
  lemma TargetsWithBlanks(q: string, p: nat, k: nat)
    requires p <= k <= |q| && (forall i :: p <= i < k ==> IsSpace(q[i])) && All(q[k..], IsTargetChar)
    ensures All(q[p..], IsTargetChar)
  {
    hide IsTargetChar, IsSpace;
    forall i | 0 <= i < |q[p..]| ensures IsTargetChar(q[p..][i]) {
      if p + i < k {
        BlankIsTargetChar(q[p + i]);
      } else {
        assert q[p..][i] == q[k..][p + i - k];
      }
    }
  }

  lemma BlanksEndBefore(q: string, n: nat, p: nat, m: nat)
    requires n < m <= |q| && n < p <= |q| && (forall i :: n <= i < p ==> IsSpace(q[i])) && !IsSpace(q[m - 1])
    ensures p < m
  {
  }

  lemma EarlierCutsItself(left: string, word: string, target: string, n: nat)
    requires left != "" && Trimmed(left) && IsConversionWord(word) && IsTarget(target)
    requires 1 <= n < |left| && TargetAt(Question(left, word, target), n, IsTargetChar).Some?
    ensures CutsItself(left)
  {
    hide TargetAt, IsTargetChar, IsConversionWord, IsSpace, Question, BlankLength, CutsAt, All;
    var q, m := Question(left, word, target), |left|;
    QuestionParts(left, word, target);
    TargetMeans(q, n, IsTargetChar);
    var p := n + BlankLength(q[n..]);
    BlanksEndBefore(q, n, p, m);
    assert p + 1 != m;
    EarlierCutsAt(left, word, target, p, p + 2 + BlankLength(q[p + 2..]));
  }

  lemma EarlierCutsAt(left: string, word: string, target: string, p: nat, k: nat)
    requires left != "" && Trimmed(left) && IsConversionWord(word) && IsTarget(target) && 2 <= p <= |left| - 2
    requires var q := Question(left, word, target);
             && p + 2 <= k <= |q| && p + 2 < |q| && IsSpace(q[p - 1]) && IsConversionWord(q[p..p + 2]) && IsSpace(q[p + 2])
             && (forall i :: p + 2 <= i < k ==> IsSpace(q[i])) && All(q[k..], IsTargetChar)
    ensures CutsAt(left, p)
  {
    hide IsTargetChar, IsConversionWord, IsSpace, Question;
    var q := Question(left, word, target);
    QuestionParts(left, word, target);
    assert q[p..p + 2] == left[p..p + 2];
    TargetsWithBlanks(q, p + 2, k);
    RestOfQuestion(left, word, target, p + 2);
  }

  /** Before the conversion word, the question has a target exactly where left cuts itself. */
  lemma EarlierTarget(left: string, word: string, target: string)
    requires left != "" && Trimmed(left) && IsConversionWord(word) && IsTarget(target)
    ensures var q := Question(left, word, target);
            CutsItself(left) <==> exists n :: 1 <= n < |left| && TargetAt(q, n, IsTargetChar).Some?
  {
    hide TargetAt, IsTargetChar, IsConversionWord, IsSpace, CutsAt;
    QuestionParts(left, word, target);
    if CutsItself(left) {
      var p :| 1 <= p <= |left| - 2 && CutsAt(left, p);
      CutsItselfEarlier(left, word, target, p);
    }
    if n :| 1 <= n < |left| && TargetAt(Question(left, word, target), n, IsTargetChar).Some? {
      EarlierCutsItself(left, word, target, n);
    }
  }

  lemma BlankIsTargetChar(c: char)
    requires IsSpace(c)
    ensures IsTargetChar(c)
  {
  }

  /** A question is cut before its conversion word exactly if left is one line and does not cut itself. */
  lemma QuestionIsCut(left: string, word: string, target: string)
    requires left != "" && Trimmed(left) && IsConversionWord(word) && IsTarget(target)
    ensures ConversionFrom(Question(left, word, target), 1, IsTargetChar) == Some(Cut(left, target)) <==>
            OneLine(left) && !CutsItself(left)
  {
    hide TargetAt, IsTargetChar, IsConversionWord, IsSpace, IsLineEnd, Question, ConversionFrom, CutsItself;
    var q, m := Question(left, word, target), |left|;
    QuestionParts(left, word, target);
    EarlierTarget(left, word, target);
    if n :| 1 <= n < m && TargetAt(q, n, IsTargetChar).Some? {
      CutsNoLater(q, 1, n, IsTargetChar);
    } else if k :| 0 <= k < m && IsLineEnd(left[k]) {
      if k + 1 < m {
        StopsAtLineEnd(q, 1, k, IsTargetChar);
      } else {
        LineEndIsBlank(left[k]);
      }
    } else {
      SkipsTo(q, 1, m, IsTargetChar);
      TargetAtWord(q, m, word, target);
      TurnAt(q, m, IsTargetChar);
    }
  }

  lemma LineEndIsBlank(c: char)
    requires IsLineEnd(c)
    ensures IsSpace(c)
  {
  }

  lemma TargetAtWord(q: string, m: nat, word: string, target: string)
    requires m < |q| && q[m..] == " " + word + " " + target && IsConversionWord(word) && target != "" && !IsSpace(target[0])
    ensures TargetAt(q, m, IsTargetChar) == (if All(target, IsTargetChar) then Some(target) else None)
    ensures TargetAt(q, m, IsCompoundChar) == if All(target, IsCompoundChar) then Some(target) else None
  {
    WordsAreTargetChars(word);
    var rest := word + " " + target;
    assert q[m..] == " " + rest && q[m + 1..] == q[m..][1..] == rest;
    BlankLengthIs(" ", rest);
    assert rest[..2] == word && rest[2..] == " " + target;
    BlankLengthIs(" ", target);
    assert (" " + target)[1..] == target;
  }

  lemma TurnAt(raw: string, n: nat, ok: char -> bool)
    requires 1 <= n < |raw| && !IsLineEnd(raw[n - 1])
    ensures ConversionFrom(raw, n, ok) ==
            match TargetAt(raw, n, ok)
            case Some(target) => Some(Cut(raw[..n], target))
            case None => ConversionFrom(raw, n + 1, ok)
  {
  }

  // ---------- questions are answered ----------

  /** The query starts with nothing that is taken off. */
  predicate StartsPlainly(text: string) {
    && text != "" && Trimmed(text) && text[0] != '='
    && !("calc " <= Lower(text)) && !("calculate " <= Lower(text)) && !("convert " <= Lower(text))
  }

  lemma NothingToTakeOff(text: string)
    requires StartsPlainly(text)
    ensures NormalizeQuery(text) == text
  {
  }

  lemma TrimKeeps(s: string)
    requires Trimmed(s)
    ensures Trim(s) == s
  {
  }

  lemma SplitAtShortest(h: Host, left: string, i: nat)
    requires Units.ProperTable(h.units) && left != "" && Trimmed(left)
    requires GoodCut(h, left, i) && forall j :: 1 <= j < i ==> !GoodCut(h, left, j)
    ensures SplitValueAndUnit(h, left) == Some(CutAt(left, i))
  {
    hide SplitWords, GoodCut, CutAt, Trim;
    TrimKeeps(left);
    assert 1 <= i by { GoodCutWithin(h, left, i); }
    ShortestIsSplit(h, left, 1, i);
  }

  lemma GoodCutWithin(h: Host, left: string, i: nat)
    requires Units.ProperTable(h.units) && GoodCut(h, left, i)
    ensures 1 <= i < |Words(left)|
  {
  }

  /** A text that can stand left of a conversion word: its last i words, and no fewer, are a unit, the others a value. */
  ghost predicate Convertible(h: Host, left: string, i: nat, unit: string, x: real)
    requires Units.ProperTable(h.units)
  {
    && left != "" && Trimmed(left) && OneLine(left) && !CutsItself(left)
    && GoodCut(h, left, i) && (forall j :: 1 <= j < i ==> !GoodCut(h, left, j))
    && CutAt(left, i).right == unit && Evaluate(h, CutAt(left, i).left) == Some(x)
  }

  /** "left to target" is answered by converting what the value in left evaluates to from the unit in left. */
  lemma QuestionIsAnswered(h: Host, left: string, i: nat, unit: string, word: string, target: string, x: real)
    requires Units.ProperTable(h.units) && Convertible(h, left, i, unit, x) && IsConversionWord(word) && IsTarget(target)
    requires StartsPlainly(Question(left, word, target)) && |Question(left, word, target)| <= LONGEST
    requires SameGroup(h, unit, target) && Direct(h, x, unit, target).Some?
    ensures Evaluate(h, Question(left, word, target)) == Direct(h, x, unit, target)
  {
    hide SplitWords, SplitValueAndUnit, ConversionFrom, NormalizeQuery, UnitLooksValid, Direct, SameGroup, CompoundConversion,
         Trim, GoodCut, CutAt, Question, StartsPlainly, CutsItself, OneLine, IsConversionWord, Words;
    var q := Question(left, word, target);
    NothingToTakeOff(q);
    QuestionIsCut(left, word, target);
    SplitAtShortest(h, left, i);
    GoodCutWithin(h, left, i);
    CutsAreTrimmed(left, i);
    TrimKeeps(left);
    TrimKeeps(target);
    PlainIsNonempty(q);
    assert UnitConversion(h, q) == Direct(h, x, unit, target);
    assert Evaluate(h, q) == UnitConversion(h, q);
  }

  lemma PlainIsNonempty(text: string)
    requires StartsPlainly(text)
    ensures text != ""
  {
  }

  // ---------- conversions as a whole ----------

  /** Units that are in the temperature group are temperature units. */
  predicate KnownTemperature(h: Host, unit: string) {
    GroupOf(h, unit) == "temperature" ==> UnitName(h, unit) in {"c", "f", "k", "r", "re"}
  }

  /** Converting on is converting directly; converting back gives the value again. */
  lemma DirectComposes(h: Host, x: real, a: string, b: string, c: string)
    requires SameGroup(h, a, b) && SameGroup(h, b, c) && KnownTemperature(h, a)
    requires Direct(h, x, a, b).Some? && Direct(h, Direct(h, x, a, b).value, b, c).Some?
    ensures Direct(h, x, a, c) == Direct(h, Direct(h, x, a, b).value, b, c)
    ensures h.arithmetic.isFinite(x) ==> Direct(h, Direct(h, x, a, b).value, b, a) == Some(x)
    ensures GroupOf(h, a) != "temperature" ==>
              Direct(h, x, a, b).value * h.factor(UnitName(h, b), GroupOf(h, a)) == x * h.factor(UnitName(h, a), GroupOf(h, a))
  {
    var group := GroupOf(h, a);
    if group == "temperature" {
      Units.TemperaturesCompose(x, UnitName(h, a), UnitName(h, b), UnitName(h, c));
    } else {
      Units.FactorsCompose(x, h.factor(UnitName(h, a), group), h.factor(UnitName(h, b), group), h.factor(UnitName(h, c), group));
      Units.RescalesAmount(x, h.factor(UnitName(h, a), group), h.factor(UnitName(h, b), group));
    }
  }

  /** A converted value is the same amount: as many base units of its group, or the same temperature. */
  lemma DirectKeepsAmount(h: Host, x: real, a: string, b: string)
    requires SameGroup(h, a, b) && KnownTemperature(h, a) && KnownTemperature(h, b) && Direct(h, x, a, b).Some?
    ensures var r, group := Direct(h, x, a, b).value, GroupOf(h, a);
            if group == "temperature" then
              var s, t := UnitName(h, a), UnitName(h, b);
              (r - Units.Freezing(t)) * (Units.Boiling(s) - Units.Freezing(s))
              == (x - Units.Freezing(s)) * (Units.Boiling(t) - Units.Freezing(t))
            else
              r * h.factor(UnitName(h, b), group) == x * h.factor(UnitName(h, a), group)
  {
    var group := GroupOf(h, a);
    if group == "temperature" {
      Units.TemperatureIsKept(x, UnitName(h, a), UnitName(h, b));
    } else {
      Units.RescalesAmount(x, h.factor(UnitName(h, a), group), h.factor(UnitName(h, b), group));
    }
  }

  lemma DirectBack(h: Host, x: real, a: string, b: string)
    requires SameGroup(h, a, b) && KnownTemperature(h, a) && Direct(h, x, a, b).Some? && h.arithmetic.isFinite(x)
    ensures Direct(h, Direct(h, x, a, b).value, b, a) == Some(x)
  {
    var group := GroupOf(h, a);
    if group == "temperature" {
      Units.TemperaturesCompose(x, UnitName(h, a), UnitName(h, b), UnitName(h, a));
    } else {
      Units.FactorsCompose(x, h.factor(UnitName(h, a), group), h.factor(UnitName(h, b), group), h.factor(UnitName(h, a), group));
    }
  }

  /** Asking back: if a text is worth the answer, asking for the first unit gives the first value. */
  lemma AskingBack(h: Host, left: string, i: nat, unit: string, word: string, target: string, x: real, left': string, i': nat, y: real)
    requires Units.ProperTable(h.units) && IsConversionWord(word) && IsTarget(target) && IsTarget(unit)
    requires Convertible(h, left, i, unit, x) && Convertible(h, left', i', target, y)
    requires StartsPlainly(Question(left, word, target)) && |Question(left, word, target)| <= LONGEST
    requires StartsPlainly(Question(left', word, unit)) && |Question(left', word, unit)| <= LONGEST
    requires SameGroup(h, unit, target) && KnownTemperature(h, unit) && KnownTemperature(h, target)
    requires h.arithmetic.isFinite(x) && Direct(h, x, unit, target).Some?
    requires Evaluate(h, Question(left, word, target)) == Some(y)
    ensures Evaluate(h, Question(left', word, unit)) == Some(x)
  {
    hide Evaluate, Direct, Convertible, StartsPlainly, Question, IsTarget, IsConversionWord, KnownTemperature;
    QuestionIsAnswered(h, left, i, unit, word, target, x);
    DirectBack(h, x, unit, target);
    QuestionIsAnswered(h, left', i', target, word, unit, y);
  }

  // ---------- inches ----------

  lemma {:induction false} WordLengthIs(word: string, rest: string)
    requires forall i :: 0 <= i < |word| ==> !IsSpace(word[i])
    requires rest == "" || IsSpace(rest[0])
    ensures WordLength(word + rest) == |word|
  {
    if word != "" {
      assert (word + rest)[1..] == word[1..] + rest;
      WordLengthIs(word[1..], rest);
    } else {
      assert word + rest == rest;
    }
  }

  lemma OneWord(s: string)
    requires IsWord(s)
    ensures Words(s) == [s]
  {
    WordLengthIs(s, "");
    assert s + "" == s && s[|s|..] == "";
  }

  lemma WordsStep(s: string)
    requires s != ""
    ensures IsSpace(s[0]) ==> Words(s) == Words(s[1..])
    ensures !IsSpace(s[0]) ==> WordLength(s) >= 1 && Words(s) == [s[..WordLength(s)]] + Words(s[WordLength(s)..])
  {
  }

  lemma WordLengthBefore(s: string, word: string)
    requires s != ""
    ensures WordLength(s + " " + word) == WordLength(s)
  {
    var n := WordLength(s);
    assert s == s[..n] + s[n..];
    assert s + " " + word == s[..n] + (s[n..] + " " + word);
    WordLengthIs(s[..n], s[n..] + " " + word);
  }

  /** One more word behind a blank. */
  lemma {:induction false} WordsAppend(s: string, word: string)
    requires IsWord(word)
    ensures Words(s + " " + word) == Words(s) + [word]
    decreases |s|
  {
    hide Words, WordLength, IsWord;
    var all := s + " " + word;
    WordsStep(all);
    if s == "" {
      assert all[1..] == word;
      OneWord(word);
      NoWords();
    } else {
      WordsStep(s);
      var n := if IsSpace(s[0]) then 1 else WordLength(s);
      if !IsSpace(s[0]) {
        WordLengthBefore(s, word);
      }
      assert all[n..] == s[n..] + " " + word && all[..n] == s[..n] && all[0] == s[0];
      WordsAppend(s[n..], word);
    }
  }

  lemma NoWords()
    ensures Words("") == []
  {
  }

  /** The text ends in a word of its own. */
  ghost predicate EndsIn(s: string, word: string) {
    s == word || exists before :: s == before + " " + word
  }

  lemma {:induction false} JoinEndsIn(words: seq<string>)
    requires words != []
    ensures EndsIn(TextCodec.Join(words, ' '), words[|words| - 1])
  {
    if |words| > 1 {
      var rest, last := words[1..], words[|words| - 1];
      JoinEndsIn(rest);
      var joined := TextCodec.Join(rest, ' ');
      if joined == last {
        assert TextCodec.Join(words, ' ') == words[0] + " " + last;
      } else {
        var before :| joined == before + " " + last;
        assert TextCodec.Join(words, ' ') == (words[0] + " " + before) + " " + last;
      }
    }
  }

  lemma SpacedCutIs(value: string, word: string)
    requires value != "" && Trimmed(value) && OneLine(value) && IsWord(word) && All(word, IsSpacedChar)
    ensures SpacedCut(value + " " + word) == Some(Cut(value, word))
  {
    hide IsSpacedChar, IsLineEnd, BlankLength, LastBlank;
    var raw, m := value + " " + word, |value|;
    LastBlankBefore(value, word);
    assert raw[m..] == " " + word;
    BlankLengthIs(" ", word);
    assert raw[m + 1..] == word && raw[..m] == value;
  }

  lemma LastBlankBefore(value: string, word: string)
    requires value != "" && Trimmed(value) && IsWord(word)
    ensures var raw := value + " " + word;
            IsSpace(raw[|value|]) && LastBlank(raw) == |value|
  {
    hide BlankFrom;
    var raw, m := value + " " + word, |value|;
    assert raw[m] == ' ' && raw[m - 1] == value[m - 1];
    assert forall i :: m < i < |raw| ==> raw[i] == word[i - m - 1];
    LastBlankIs(raw, m, |raw|);
  }

  lemma {:induction false} LastBlankIs(s: string, m: nat, k: nat)
    requires m < k <= |s| && IsSpace(s[m]) && forall i :: m < i < k ==> !IsSpace(s[i])
    ensures BlankFrom(s, k) == m
    decreases k
  {
    if k - 1 > m {
      LastBlankIs(s, m, k - 1);
    }
  }

  lemma WordCutEndsIn(value: string, word: string, k: nat)
    requires IsWord(word) && 1 <= k < |Words(value + " " + word)|
    ensures var cut := CutAt(value + " " + word, k);
            Trim(cut.right) == cut.right && EndsIn(cut.right, word)
  {
    hide Words, EndsIn, IsWord, Trim;
    WordsAppend(value, word);
    var words := Words(value + " " + word);
    CutsAreTrimmed(value + " " + word, k);
    JoinEndsIn(words[|words| - k..]);
  }

  lemma SplitWordsEndsIn(h: Host, value: string, word: string)
    requires Units.ProperTable(h.units) && IsWord(word) && SplitWords(h, value + " " + word, 1).Some?
    ensures EndsIn(Trim(SplitWords(h, value + " " + word, 1).value.right), word)
  {
    hide SplitWords, Words, EndsIn, Trim, CutAt, IsWord, Evaluate, UnitLooksValid;
    var raw := value + " " + word;
    SplitIsShortest(h, raw, 1);
    var k :| 1 <= k && GoodCut(h, raw, k) && SplitWords(h, raw, 1).value == CutAt(raw, k);
    WordCutEndsIn(value, word, k);
  }

  /** Whatever the value, the unit that is split off ends in the last word. */
  lemma SplitEndsIn(h: Host, value: string, word: string)
    requires Units.ProperTable(h.units)
    requires value != "" && Trimmed(value) && OneLine(value) && IsWord(word) && All(word, IsSpacedChar)
    ensures var cut := SplitValueAndUnit(h, value + " " + word);
            cut.Some? && EndsIn(Trim(cut.value.right), word)
  {
    hide SpacedCut, AttachedCut, EndsIn, SplitWords, Trim, IsSpacedChar, OneLine, All;
    var raw := value + " " + word;
    assert raw[0] == value[0] && raw[|raw| - 1] == word[|word| - 1];
    TrimKeeps(raw);
    TrimKeeps(word);
    if SplitWords(h, raw, 1).Some? {
      SplitWordsEndsIn(h, value, word);
    } else {
      SpacedCutIs(value, word);
      EndsInItself(word);
    }
  }

  lemma EndsInItself(word: string)
    ensures EndsIn(word, word)
  {
  }

  /** Rewriting a unit text leaves the word in at its end as it is. */
  ghost predicate KeepsInches(h: Host) {
    forall unit :: EndsIn(unit, "in") ==> Units.Contains(h.rewriteUnits(unit), "in")
  }

  /** The question is cut as a compound one before its conversion word or not at all. */
  lemma CompoundCutIs(value: string, target: string)
    requires value != "" && Trimmed(value) && OneLine(value) && IsWord(target)
    ensures var left := value + " in";
            var cut := ConversionFrom(Question(left, "to", target), 1, IsCompoundChar);
            cut.Some? ==> cut == Some(Cut(left, target))
  {
    hide TargetAt, IsCompoundChar, IsSpace, IsLineEnd, ConversionFrom, BlankLength;
    var left := value + " in";
    var q, m := Question(left, "to", target), |left|;
    InchesParts(value, target);
    forall n | 1 <= n < m ensures TargetAt(q, n, IsCompoundChar).None? {
      NoEarlierCompound(value, target, n);
    }
    SkipsTo(q, 1, m, IsCompoundChar);
    TargetAtWord(q, m, "to", target);
    TurnAt(q, m, IsCompoundChar);
    if !All(target, IsCompoundChar) {
      assert q[m + 1] == 't' && q[m + 2] == 'o';
      NothingBehind(q, m, target);
    }
  }

  lemma InchesParts(value: string, target: string)
    requires value != "" && Trimmed(value) && OneLine(value) && IsWord(target)
    ensures var left := value + " in";
            var q, m := Question(left, "to", target), |left|;
            && Trimmed(left) && OneLine(left) && IsConversionWord("to") && IsConversionWord("in") && IsWord("in") && All("in", IsSpacedChar)
            && |q| == m + 4 + |target| && q[..m] == left && q[m..] == " " + "to" + " " + target && q[m + 4..] == target
            && OneLine(q[..m]) && !IsLineEnd(q[m - 1])
            && !IsSpace(q[m - 1]) && IsSpace(q[m]) && !IsSpace(q[m + 1]) && !IsSpace(q[m + 2]) && q[m + 3] == ' '
            && !IsSpace(target[0])
  {
    var left := value + " in";
    var q, m := Question(left, "to", target), |left|;
    assert Lower("in") == "in" && Lower("to") == "to";
    assert left[0] == value[0] && left[m - 1] == 'n' && left[m - 2] == 'i' && left[m - 3] == ' ';
    forall i | 0 <= i < m ensures !IsLineEnd(left[i]) {
      if i < |value| {
        assert left[i] == value[i];
      }
    }
    assert q[m - 1] == 'n';
  }

  lemma NoEarlierCompound(value: string, target: string, n: nat)
    requires value != "" && Trimmed(value) && OneLine(value) && IsWord(target) && 1 <= n < |value| + 3
    ensures TargetAt(Question(value + " in", "to", target), n, IsCompoundChar).None?
  {
    var left := value + " in";
    var q, m := Question(left, "to", target), |left|;
    InchesParts(value, target);
    hide TargetAt, IsSpace, IsCompoundChar, Question, BlankLength, IsConversionWord;
    BlankIsNoCompoundChar(q[m + 3]);
    assert forall k :: 0 <= k <= m + 3 ==> q[k..][m + 3 - k] == q[m + 3];
    if TargetAt(q, n, IsCompoundChar).Some? {
      TargetMeans(q, n, IsCompoundChar);
      assert false;
    }
  }

  lemma BlankIsNoCompoundChar(c: char)
    requires c == ' '
    ensures !IsCompoundChar(c) && IsSpace(c)
  {
  }

  lemma {:induction false} NothingBehind(q: string, m: nat, target: string)
    requires m + 4 + |target| == |q| && q[m + 4..] == target && IsWord(target) && !All(target, IsCompoundChar)
    requires !IsSpace(q[m + 1]) && !IsSpace(q[m + 2]) && q[m + 3] == ' '
    ensures ConversionFrom(q, m + 1, IsCompoundChar).None?
  {
    hide TargetAt, IsSpace, IsCompoundChar, BlankLength, IsLineEnd;
    assert forall i :: m + 4 <= i < |q| ==> q[i] == target[i - m - 4];
    forall n | m + 1 <= n < |q| ensures TargetAt(q, n, IsCompoundChar).None? {
      if TargetAt(q, n, IsCompoundChar).Some? {
        TargetMeans(q, n, IsCompoundChar);
        assert false;
      }
    }
    NeverCut(q, m + 1, IsCompoundChar);
  }

  lemma {:induction false} NeverCut(q: string, n: nat, ok: char -> bool)
    requires 1 <= n && forall i :: n <= i < |q| ==> TargetAt(q, i, ok).None?
    ensures ConversionFrom(q, n, ok).None?
    decreases |q| - n
  {
    hide TargetAt, IsLineEnd;
    if n < |q| {
      NeverCut(q, n + 1, ok);
    }
  }

  lemma CutsAtInValue(value: string, unit: string, p: nat)
    requires value != "" && Trimmed(value) && IsWord(unit) && 1 <= p <= |value| + |unit| - 1 && CutsAt(value + " " + unit, p)
    ensures (p <= |value| - 2 && CutsAt(value, p)) || (p == |value| + 1 && unit == (value + " " + unit)[p..p + 2])
  {
    hide IsTargetChar, IsSpace;
    var left, m := value + " " + unit, |value|;
    WordsAreTargetChars(left[p..p + 2]);
    assert IsSpace(left[m]) by { BlankIsNoCompoundChar(left[m]); }
    assert forall i :: 0 <= i < m ==> left[i] == value[i];
    assert forall i :: m < i < |left| ==> left[i] == unit[i - m - 1];
    assert left[p..p + 2][0] == left[p] && left[p..p + 2][1] == left[p + 1];
    if p <= m - 2 {
      assert left[p..p + 2] == value[p..p + 2];
      var rest := value[p + 2..];
      forall i | 0 <= i < |rest| ensures IsTargetChar(rest[i]) {
        assert left[p + 2..][i] == rest[i];
      }
    } else {
      assert p == m + 1;
      assert p + 2 == |left|;
      assert left[p..p + 2] == unit;
    }
  }

  /** A word behind a blank lets the text be cut at it exactly if it is a conversion word. */
  lemma SpacedUnitCuts(value: string, unit: string)
    requires value != "" && Trimmed(value) && OneLine(value) && !CutsItself(value) && IsWord(unit)
    ensures OneLine(value + " " + unit) && (CutsItself(value + " " + unit) <==> IsConversionWord(unit))
  {
    hide CutsAt, IsConversionWord, IsSpace, IsLineEnd, IsTargetChar;
    var left, m := value + " " + unit, |value|;
    forall i | 0 <= i < |left| ensures !IsLineEnd(left[i]) {
      NoLineEnds(value, unit, i);
    }
    if IsConversionWord(unit) {
      CutsAtUnit(value, unit);
    }
    if p :| 1 <= p <= |left| - 2 && CutsAt(left, p) {
      CutsAtInValue(value, unit, p);
      CutHasWord(left, p);
    }
  }

  lemma CutHasWord(left: string, p: nat)
    requires p <= |left| - 2 && CutsAt(left, p)
    ensures IsConversionWord(left[p..p + 2])
  {
  }

  lemma NoLineEnds(value: string, unit: string, i: nat)
    requires OneLine(value) && IsWord(unit) && i < |value + " " + unit|
    ensures !IsLineEnd((value + " " + unit)[i])
  {
    var c := (value + " " + unit)[i];
    if i < |value| {
      assert c == value[i];
    } else if i > |value| {
      assert c == unit[i - |value| - 1];
    }
  }

  lemma CutsAtUnit(value: string, unit: string)
    requires value != "" && IsConversionWord(unit)
    ensures var left := value + " " + unit; |value| + 1 == |left| - 2 && CutsAt(left, |value| + 1)
  {
    hide IsTargetChar;
    WordsAreTargetChars(unit);
    var left, p := value + " " + unit, |value| + 1;
    assert left[p..p + 2] == unit && left[p + 2..] == "" && left[p - 1] == ' ';
  }

  /** A question "value unit to target" is cut before its own conversion word exactly if the unit is not one itself. */
  lemma SpacedQuestionIsCut(value: string, unit: string, word: string, target: string)
    requires value != "" && Trimmed(value) && OneLine(value) && !CutsItself(value) && IsWord(unit)
    requires IsConversionWord(word) && IsTarget(target)
    ensures var left := value + " " + unit;
            ConversionFrom(Question(left, word, target), 1, IsTargetChar) == Some(Cut(left, target)) <==> !IsConversionWord(unit)
  {
    hide CutsItself, OneLine, IsConversionWord, ConversionFrom, Question, IsTarget, IsTargetChar;
    var left := value + " " + unit;
    SpacedUnitCuts(value, unit);
    assert left[0] == value[0] && left[|left| - 1] == unit[|unit| - 1];
    QuestionIsCut(left, word, target);
  }

  /** Inches cannot be converted by their short name, standing alone: in "5 in to cm" the query is cut before "in", where
      "to cm" is no unit, and as a compound conversion it is refused because of the letters of "in" in its unit. */
  lemma InchesAreNotConverted(h: Host, value: string, target: string)
    requires Units.ProperTable(h.units) && KeepsInches(h) && GroupOf(h, "to " + target) == ""
    requires value != "" && Trimmed(value) && OneLine(value) && !CutsItself(value)
    requires IsWord(target) && All(target, IsTargetChar) && StartsPlainly(Question(value + " in", "to", target))
    ensures UnitConversion(h, Question(value + " in", "to", target)).None?
  {
    hide SplitValueAndUnit, ConversionFrom, NormalizeQuery, CompoundConversion, Trim, StartsPlainly, CutsItself, OneLine,
         IsConversionWord, GroupOf, Evaluate, Question, IsTargetChar, KeepsInches;
    var q, tail := Question(value + " in", "to", target), "to " + target;
    NothingToTakeOff(q);
    InchesParts(value, target);
    TailIsTarget(target);
    assert q == Question(value, "in", tail) by { SameQuestion(value, target); }
    QuestionIsCut(value, "in", tail);
    TrimKeeps(value);
    TrimKeeps(tail);
    NoCompoundInches(h, value, target);
  }

  lemma SameQuestion(value: string, target: string)
    ensures Question(value + " in", "to", target) == Question(value, "in", "to " + target)
  {
    assert value + " in" + " " + "to" + " " + target == value + " " + "in" + " " + ("to " + target);
  }

  lemma TailIsTarget(target: string)
    requires IsWord(target) && All(target, IsTargetChar)
    ensures IsTarget("to " + target) && Trimmed("to " + target)
  {
    var tail := "to " + target;
    assert tail[|tail| - 1] == target[|target| - 1];
    forall i | 0 <= i < |tail| ensures IsTargetChar(tail[i]) {
      if i >= 3 {
        assert tail[i] == target[i - 3];
      }
    }
  }

  lemma NoCompoundInches(h: Host, value: string, target: string)
    requires Units.ProperTable(h.units) && KeepsInches(h)
    requires value != "" && Trimmed(value) && OneLine(value) && IsWord(target)
    requires StartsPlainly(Question(value + " in", "to", target))
    ensures CompoundConversion(h, Question(value + " in", "to", target)).None?
  {
    hide SplitValueAndUnit, ConversionFrom, NormalizeQuery, Trim, StartsPlainly, OneLine, IsConversionWord, Evaluate, Question,
         IsSpacedChar, IsSpace, EndsIn;
    var q := Question(value + " in", "to", target);
    NothingToTakeOff(q);
    InchesParts(value, target);
    CompoundCutIs(value, target);
    TrimKeeps(value + " in");
    assert value + " in" == value + " " + "in";
    SplitEndsIn(h, value, "in");
    var unit := Trim(SplitValueAndUnit(h, value + " in").value.right);
    assert Units.Contains(h.rewriteUnits(unit), "in");
    assert Units.Spec(h.units, h.rewriteUnits(unit)).None?;
  }

  // ---------- numbers ----------

  lemma {:induction false} NoBlankNoConversion(raw: string, n: nat, ok: char -> bool)
    requires 1 <= n && forall i :: 0 <= i < |raw| ==> !IsSpace(raw[i])
    ensures ConversionFrom(raw, n, ok).None?
    decreases |raw| - n
  {
    if n < |raw| {
      NoBlankNoConversion(raw, n + 1, ok);
    }
  }

  /** A number by itself is answered with itself. */
  lemma NumberIsAnswered(h: Host, value: string)
    requires Units.ProperTable(h.units) && IsWord(value) && StartsPlainly(value)
    requires h.literal(value).Some? && h.arithmetic.isFinite(h.literal(value).value)
    ensures Evaluate(h, value) == h.literal(value)
  {
    NothingToTakeOff(value);
    NoBlankNoConversion(value, 1, IsTargetChar);
    hide ConversionFrom, NormalizeQuery;
    assert UnitConversion(h, value).None?;
  }

  predicate IsNumber(h: Host, text: string, x: real) {
    IsWord(text) && StartsPlainly(text) && h.literal(text) == Some(x) && h.arithmetic.isFinite(x)
  }

  /** A unit of one word, not read as a conversion word. */
  predicate IsUnitWord(h: Host, unit: string) {
    IsWord(unit) && All(unit, IsTargetChar) && !IsConversionWord(unit) && h.group(unit) != "" && KnownTemperature(h, unit)
  }

  lemma NumberIsConvertible(h: Host, value: string, unit: string, x: real)
    requires Units.ProperTable(h.units) && IsNumber(h, value, x) && IsUnitWord(h, unit)
    ensures Convertible(h, value + " " + unit, 1, unit, x)
  {
    var left := value + " " + unit;
    hide Evaluate, Words, StartsPlainly, IsTargetChar, KnownTemperature, OneLine, CutsItself;
    OneWord(value);
    WordsAppend(value, unit);
    NumberIsAnswered(h, value);
    WordsAreOneLine(value, unit);
    assert Words(left)[..1] == [value] && Words(left)[1..] == [unit];
    assert TextCodec.Join([value], ' ') == value && TextCodec.Join([unit], ' ') == unit;
    assert left[0] == value[0] && left[|left| - 1] == unit[|unit| - 1];
  }

  lemma WordsAreOneLine(value: string, unit: string)
    requires IsWord(value) && IsWord(unit) && !IsConversionWord(unit)
    ensures OneLine(value + " " + unit) && !CutsItself(value + " " + unit)
  {
    hide IsTargetChar, IsConversionWord, IsLineEnd, IsSpace;
    forall i | 0 <= i < |value| ensures !IsLineEnd(value[i]) {
      if IsLineEnd(value[i]) {
        LineEndIsBlank(value[i]);
        assert false;
      }
    }
    SpacedUnitCuts(value, unit);
  }

  lemma WordIsTarget(unit: string)
    requires IsWord(unit) && All(unit, IsTargetChar)
    ensures IsTarget(unit)
  {
  }

  /** A number is converted there and back: the answers of the two queries are the two numbers. */
  lemma ThereAndBack(h: Host, value: string, unit: string, target: string, back: string, x: real, y: real)
    requires Units.ProperTable(h.units) && IsUnitWord(h, unit) && IsUnitWord(h, target) && SameGroup(h, unit, target)
    requires IsNumber(h, value, x) && IsNumber(h, back, y) && Direct(h, x, unit, target) == Some(y)
    ensures var there, again := Question(value + " " + unit, "to", target), Question(back + " " + target, "to", unit);
            StartsPlainly(there) && |there| <= LONGEST && StartsPlainly(again) && |again| <= LONGEST ==>
              Evaluate(h, there) == Some(y) && Evaluate(h, again) == Some(x)
  {
    hide Evaluate, Direct, SameGroup, KnownTemperature, IsWord, StartsPlainly, All, Question, Convertible, IsTarget;
    NumberIsConvertible(h, value, unit, x);
    NumberIsConvertible(h, back, target, y);
    WordIsTarget(unit);
    WordIsTarget(target);
    assert Lower("to") == "to";
    var there, again := Question(value + " " + unit, "to", target), Question(back + " " + target, "to", unit);
    if StartsPlainly(there) && |there| <= LONGEST && StartsPlainly(again) && |again| <= LONGEST {
      QuestionIsAnswered(h, value + " " + unit, 1, unit, "to", target, x);
      AskingBack(h, value + " " + unit, 1, unit, "to", target, x, back + " " + target, 1, y);
    }
  }
}
