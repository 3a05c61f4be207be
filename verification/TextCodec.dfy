/** Texts: encodings that can be read back (decimal numbers, separated lists), trimming, and lexicographic order. */
module TextCodec {
  import opened Sorting

  function Decimal(n: nat): (s: string)
    ensures s != ""
  {
    if n < 10 then [(n + 48) as char] else Decimal(n / 10) + [(n % 10 + 48) as char]
  }

  function ReadDecimal(s: string): int {
    if s == "" then 0 else 10 * ReadDecimal(s[..|s| - 1]) + (s[|s| - 1] as int - 48)
  }

  lemma {:induction false} DecimalIsReadBack(n: nat)
    ensures ReadDecimal(Decimal(n)) == n
    ensures forall i :: 0 <= i < |Decimal(n)| ==> '0' <= Decimal(n)[i] <= '9'
  {
    if n >= 10 {
      DecimalIsReadBack(n / 10);
      assert Decimal(n)[..|Decimal(n)| - 1] == Decimal(n / 10);
    } else {
      assert Decimal(n)[..0] == "";
    }
  }

  function SignedDecimal(n: int): (s: string)
    ensures s != ""
  {
    if n < 0 then "-" + Decimal(-n) else Decimal(n)
  }

  lemma SignedDecimalInjective(m: int, n: int)
    requires SignedDecimal(m) == SignedDecimal(n)
    ensures m == n
  {
    var a, b := if m < 0 then -m else m, if n < 0 then -n else n;
    DecimalIsReadBack(a);
    DecimalIsReadBack(b);
    assert Decimal(a) == if m < 0 then SignedDecimal(m)[1..] else SignedDecimal(m);
    assert Decimal(b) == if n < 0 then SignedDecimal(n)[1..] else SignedDecimal(n);
    assert SignedDecimal(m)[0] == '-' <==> m < 0;
    assert SignedDecimal(n)[0] == '-' <==> n < 0;
  }

  lemma SignedDecimalChars(n: int, c: char)
    requires c in SignedDecimal(n)
    ensures c == '-' || '0' <= c <= '9'
  {
    DecimalIsReadBack(if n < 0 then -n else n);
  }

  /** What stands before the first c, and after it, is determined. */
  lemma FirstSeparator(c: char, a: string, x: string, b: string, y: string)
    requires a + [c] + x == b + [c] + y && c !in a && c !in b
    ensures a == b && x == y
  {
    var s := a + [c] + x;
    assert s[|a|] == c && s[|b|] == c;
    assert forall i :: 0 <= i < |a| ==> s[i] == a[i] && a[i] in a;
    assert forall i :: 0 <= i < |b| ==> s[i] == b[i] && b[i] in b;
    assert s[..|a|] == a && s[..|b|] == b;
    assert s[|a| + 1..] == x && s[|b| + 1..] == y;
  }

  // ---------- lists with a separator ----------

  function Join(parts: seq<string>, sep: char): string {
    if parts == [] then ""
    else if |parts| == 1 then parts[0]
    else parts[0] + [sep] + Join(parts[1..], sep)
  }

  /** Parts that can be told apart after joining. */
  predicate Separable(parts: seq<string>, sep: char) {
    forall i :: 0 <= i < |parts| ==> parts[i] != "" && sep !in parts[i]
  }

  function Terminated(parts: seq<string>, sep: char): string {
    if parts == [] then "" else parts[0] + [sep] + Terminated(parts[1..], sep)
  }

  lemma {:induction false} JoinThenSeparator(parts: seq<string>, sep: char)
    requires parts != []
    ensures Join(parts, sep) + [sep] == Terminated(parts, sep)
  {
    if |parts| > 1 {
      JoinThenSeparator(parts[1..], sep);
      assert Join(parts, sep) + [sep] == parts[0] + [sep] + (Join(parts[1..], sep) + [sep]);
    } else {
      assert Terminated(parts[1..], sep) == "";
      assert parts[0] + [sep] + "" == parts[0] + [sep];
    }
  }

  lemma {:induction false} TerminatedInjective(a: seq<string>, b: seq<string>, sep: char)
    requires Separable(a, sep) && Separable(b, sep) && Terminated(a, sep) == Terminated(b, sep)
    ensures a == b
  {
    if a != [] && b != [] {
      FirstSeparator(sep, a[0], Terminated(a[1..], sep), b[0], Terminated(b[1..], sep));
      TerminatedInjective(a[1..], b[1..], sep);
      assert a == [a[0]] + a[1..] && b == [b[0]] + b[1..];
    }
  }

  lemma JoinIsEmpty(parts: seq<string>, sep: char)
    requires Separable(parts, sep)
    ensures Join(parts, sep) == "" <==> parts == []
  {
  }

  /** Joining loses nothing: the list can be told from the text. */
  lemma JoinInjective(a: seq<string>, b: seq<string>, sep: char)
    requires Separable(a, sep) && Separable(b, sep) && Join(a, sep) == Join(b, sep)
    ensures a == b
  {
    JoinIsEmpty(a, sep);
    JoinIsEmpty(b, sep);
    if a != [] {
      JoinThenSeparator(a, sep);
      JoinThenSeparator(b, sep);
      TerminatedInjective(a, b, sep);
    }
  }

  // ---------- white space at the ends ----------

  function TrimFront(space: char -> bool, s: string): (r: string)
    ensures |r| <= |s|
    ensures forall c :: c in r ==> c in s
    ensures r != "" ==> !space(r[0])
  {
    if s != "" && space(s[0]) then TrimFront(space, s[1..]) else s
  }

  function TrimBack(space: char -> bool, s: string): (r: string)
    ensures |r| <= |s|
    ensures forall c :: c in r ==> c in s
    ensures r != "" ==> s != "" && r[0] == s[0] && !space(r[|r| - 1])
  {
    if s != "" && space(s[|s| - 1]) then TrimBack(space, s[..|s| - 1]) else s
  }

  function Trim(space: char -> bool, s: string): (r: string)
    ensures |r| <= |s|
    ensures forall c :: c in r ==> c in s
    ensures r != "" ==> !space(r[0]) && !space(r[|r| - 1])
  {
    TrimBack(space, TrimFront(space, s))
  }

  lemma {:induction false} TrimKeeps(space: char -> bool, s: string)
    requires s != "" ==> !space(s[0]) && !space(s[|s| - 1])
    ensures Trim(space, s) == s
  {
  }

  // ---------- lexicographic order ----------

  predicate LexLe(a: string, b: string) {
    a == "" || (b != "" && (a[0] < b[0] || (a[0] == b[0] && LexLe(a[1..], b[1..]))))
  }

  lemma {:induction false} LexTotal(a: string, b: string)
    ensures LexLe(a, b) || LexLe(b, a)
  {
    if a != "" && b != "" && a[0] == b[0] {
      LexTotal(a[1..], b[1..]);
    }
  }

  lemma {:induction false} LexTransitive(a: string, b: string, c: string)
    requires LexLe(a, b) && LexLe(b, c)
    ensures LexLe(a, c)
  {
    if a != "" && a[0] == b[0] == c[0] {
      LexTransitive(a[1..], b[1..], c[1..]);
    }
  }

  lemma {:induction false} LexAntisymmetric(a: string, b: string)
    requires LexLe(a, b) && LexLe(b, a)
    ensures a == b
  {
    if a != "" {
      LexAntisymmetric(a[1..], b[1..]);
      assert a == [a[0]] + a[1..] && b == [b[0]] + b[1..];
    }
  }

  lemma LexIsTotalOrder()
    ensures Total(LexLe) && Transitive(LexLe) && Antisymmetric(LexLe)
  {
    forall a, b
      ensures LexLe(a, b) || LexLe(b, a)
    {
      LexTotal(a, b);
    }
    forall a, b, c | LexLe(a, b) && LexLe(b, c)
      ensures LexLe(a, c)
    {
      LexTransitive(a, b, c);
    }
    forall a, b | LexLe(a, b) && LexLe(b, a)
      ensures a == b
    {
      LexAntisymmetric(a, b);
    }
  }
}
