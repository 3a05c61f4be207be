/**
 Compound units of the Pulse calculator. A unit expression such as kg*m/s2 is read into a factor and a vector of
 dimension exponents; two expressions convert into each other if the texts made from their vectors agree.
 */
module CalculatorUnits {
  import opened Prelude
  import opened CalculatorLexer
  import opened Sorting
  import opened TextCodec

  // ---------- dimension vectors ----------

  type Dims = map<string, int>

  function Exponent(dims: Dims, name: string): int {
    if name in dims then dims[name] else 0
  }

  predicate NoZeros(dims: Dims) {
    forall name :: name in dims ==> dims[name] != 0
  }

  ghost predicate SameExponents(a: Dims, b: Dims) {
    forall name :: Exponent(a, name) == Exponent(b, name)
  }

  lemma SameExponentsSameMap(a: Dims, b: Dims)
    requires NoZeros(a) && NoZeros(b) && SameExponents(a, b)
    ensures a == b
  {
    forall name ensures name in a <==> name in b {
      assert Exponent(a, name) == Exponent(b, name);
    }
    forall name | name in a ensures a[name] == b[name] {
      assert Exponent(a, name) == Exponent(b, name);
    }
  }

  /** target + m * source, without the dimensions that cancel. */
  function Sum(target: Dims, source: Dims, m: int): (r: Dims)
    ensures NoZeros(r) && forall name :: Exponent(r, name) == Exponent(target, name) + Exponent(source, name) * m
  {
    map name | name in target.Keys + source.Keys && Exponent(target, name) + Exponent(source, name) * m != 0 ::
      Exponent(target, name) + Exponent(source, name) * m
  }

  /** dims with the exponent of one dimension raised by e. */
  function Raise(dims: Dims, name: string, e: int): (r: Dims)
    ensures NoZeros(dims) ==> NoZeros(r)
    ensures forall n :: Exponent(r, n) == Exponent(dims, n) + if n == name then e else 0
  {
    var v := Exponent(dims, name) + e;
    if v == 0 then dims - {name} else dims[name := v]
  }

  method UnitDimAdd(target: Dims, source: Dims, m: int) returns (r: Dims)
    requires NoZeros(target)
    ensures r == Sum(target, source, m)
  {
    hide Sum, Raise;
    r := target;
    if m == 0 {
      SameExponentsSameMap(target, Sum(target, source, m));
      return;
    }
    var keys := source.Keys;
    while keys != {}
      invariant keys <= source.Keys && NoZeros(r)
      invariant forall name :: Exponent(r, name) ==
                               Exponent(target, name) + if name in keys then 0 else Exponent(source, name) * m
      decreases |keys|
    {
      var key :| key in keys;
      keys := keys - {key};
      var value := source[key];
      if value != 0 {
        r := Raise(r, key, value * m);
      }
    }
    SameExponentsSameMap(r, Sum(target, source, m));
  }

  // ---------- the text of a vector ----------

  function Piece(name: string, e: int): string {
    name + ":" + SignedDecimal(e)
  }

  function Pieces(dims: Dims): set<string> {
    set name | name in dims && dims[name] != 0 :: Piece(name, dims[name])
  }

  lemma LeastExists(texts: set<string>)
    requires texts != {}
    decreases |texts|
    ensures exists t :: t in texts && forall x :: x in texts ==> LexLe(t, x)
  {
    LexIsTotalOrder();
    var x :| x in texts;
    var rest := texts - {x};
    if rest == {} {
      assert texts == {x};
      assert LexLe(x, x);
    } else {
      LeastExists(rest);
      var t :| t in rest && forall y :: y in rest ==> LexLe(t, y);
      var least := if LexLe(t, x) then t else x;
      assert forall y :: y in texts ==> y == x || y in rest;
      assert least in texts && forall y :: y in texts ==> LexLe(least, y);
    }
  }

  ghost function InOrder(texts: set<string>): (r: seq<string>)
    ensures multiset(r) == multiset(texts)
  {
    if texts == {} then [] else
      LeastExists(texts);
      var t :| t in texts && forall x :: x in texts ==> LexLe(t, x);
      assert texts == {t} + (texts - {t});
      [t] + InOrder(texts - {t})
  }

  lemma InOrderStep(texts: set<string>)
    requires texts != {}
    ensures var r := InOrder(texts);
            && r != [] && r[0] in texts && (forall x :: x in texts ==> LexLe(r[0], x))
            && r[1..] == InOrder(texts - {r[0]})
  {
  }

  lemma InOrderMembers(texts: set<string>)
    ensures forall x :: x in InOrder(texts) <==> x in texts
  {
    assert forall x :: x in InOrder(texts) <==> x in multiset(InOrder(texts));
  }

  lemma {:induction false} InOrderSorts(texts: set<string>)
    ensures SortedBy(LexLe, InOrder(texts)) && forall x :: x in InOrder(texts) <==> x in texts
  {
    hide InOrder, LexLe;
    var r := InOrder(texts);
    InOrderMembers(texts);
    if texts != {} {
      InOrderStep(texts);
      InOrderSorts(texts - {r[0]});
      forall i, j | 0 <= i < j < |r| ensures LexLe(r[i], r[j]) {
        if i > 0 {
          assert r[i] == r[1..][i - 1] && r[j] == r[1..][j - 1];
        } else {
          assert r[j] in r;
        }
      }
    } else {
      assert |r| == |multiset(r)| == 0;
    }
  }

  ghost function DimKey(dims: Dims): string {
    Join(InOrder(Pieces(dims)), '|')
  }

  /** The pieces of the dimensions whose names are not in left. */
  function PiecesDone(dims: Dims, left: set<string>): set<string> {
    set name | name in dims && name !in left && dims[name] != 0 :: Piece(name, dims[name])
  }

  lemma PieceIsNew(dims: Dims, left: set<string>, k: string)
    requires Named(dims) && k in left && k in dims && dims[k] != 0
    ensures Piece(k, dims[k]) !in PiecesDone(dims, left)
  {
    if Piece(k, dims[k]) in PiecesDone(dims, left) {
      var name :| name in dims && name !in left && dims[name] != 0 && Piece(name, dims[name]) == Piece(k, dims[k]);
      PieceInjective(name, dims[name], k, dims[k]);
      assert false;
    }
  }

  lemma OnePieceMore(dims: Dims, left: set<string>, k: string)
    requires k in left && k in dims
    ensures PiecesDone(dims, left - {k}) == PiecesDone(dims, left) + if dims[k] != 0 then {Piece(k, dims[k])} else {}
  {
  }

  method CollectPieces(dims: Dims) returns (pieces: seq<string>)
    requires Named(dims)
    ensures multiset(pieces) == multiset(Pieces(dims))
  {
    hide Piece, Named;
    pieces := [];
    var left := dims.Keys;
    assert PiecesDone(dims, left) == {};
    while left != {}
      invariant left <= dims.Keys
      invariant multiset(pieces) == multiset(PiecesDone(dims, left))
      decreases |left|
    {
      var k :| k in left;
      OnePieceMore(dims, left, k);
      var v := dims[k];
      if v != 0 {
        PieceIsNew(dims, left, k);
        pieces := pieces + [Piece(k, v)];
      }
      left := left - {k};
    }
    assert PiecesDone(dims, left) == Pieces(dims);
  }

  method UnitDimKey(dims: Dims) returns (key: string)
    requires Named(dims)
    ensures key == DimKey(dims)
  {
    hide Pieces, LexLe, InOrder;
    var pieces := CollectPieces(dims);
    var sorted := SortBy(LexLe, pieces);
    LexIsTotalOrder();
    SortBySorts(LexLe, pieces);
    InOrderSorts(Pieces(dims));
    SortedIsUnique(LexLe, sorted, InOrder(Pieces(dims)));
    key := Join(sorted, '|');
  }

  /** The names of dimensions are free of the two separators. */
  predicate Named(dims: Dims) {
    forall name :: name in dims ==> ':' !in name && '|' !in name
  }

  lemma PieceInjective(name: string, e: int, name': string, e': int)
    requires ':' !in name && ':' !in name' && Piece(name, e) == Piece(name', e')
    ensures name == name' && e == e'
  {
    FirstSeparator(':', name, SignedDecimal(e), name', SignedDecimal(e'));
    SignedDecimalInjective(e, e');
  }

  lemma PiecesSeparable(dims: Dims)
    requires Named(dims)
    ensures Separable(InOrder(Pieces(dims)), '|')
  {
    var r := InOrder(Pieces(dims));
    InOrderSorts(Pieces(dims));
    forall i | 0 <= i < |r| ensures r[i] != "" && '|' !in r[i] {
      assert r[i] in r;
      var name :| name in dims && dims[name] != 0 && r[i] == Piece(name, dims[name]);
      if '|' in r[i] {
        SignedDecimalChars(dims[name], '|');
        assert false;
      }
    }
  }

  lemma SamePieces(a: Dims, b: Dims, name: string)
    requires Named(a) && Named(b) && Pieces(a) <= Pieces(b) && Exponent(a, name) != 0
    ensures Exponent(b, name) == Exponent(a, name)
  {
    assert Piece(name, a[name]) in Pieces(a);
    var name' :| name' in b && b[name'] != 0 && Piece(name', b[name']) == Piece(name, a[name]);
    PieceInjective(name', b[name'], name, a[name]);
  }

  /** The text is canonical: two vectors have the same one exactly if their exponents agree. */
  lemma DimKeyCanonical(a: Dims, b: Dims)
    requires Named(a) && Named(b)
    ensures DimKey(a) == DimKey(b) <==> SameExponents(a, b)
  {
    if DimKey(a) == DimKey(b) {
      PiecesSeparable(a);
      PiecesSeparable(b);
      JoinInjective(InOrder(Pieces(a)), InOrder(Pieces(b)), '|');
      InOrderSorts(Pieces(a));
      InOrderSorts(Pieces(b));
      assert Pieces(a) == Pieces(b);
      forall name ensures Exponent(a, name) == Exponent(b, name) {
        if Exponent(a, name) != 0 {
          SamePieces(a, b, name);
        } else if Exponent(b, name) != 0 {
          SamePieces(b, a, name);
        }
      }
    }
    if SameExponents(a, b) {
      PiecesWithin(a, b);
      PiecesWithin(b, a);
      assert Pieces(a) == Pieces(b);
    }
  }

  lemma PiecesWithin(a: Dims, b: Dims)
    requires SameExponents(a, b)
    ensures Pieces(a) <= Pieces(b)
  {
    forall t | t in Pieces(a) ensures t in Pieces(b) {
      var name :| name in a && a[name] != 0 && t == Piece(name, a[name]);
      assert Exponent(a, name) == Exponent(b, name);
    }
  }

  // ---------- quantities ----------

  /** What a unit expression stands for: so many base units of a dimension. */
  datatype Quantity = Quantity(factor: real, dims: Dims)

  const ONE := Quantity(1.0, map[])

  predicate Proper(q: Quantity) {
    q.factor > 0.0 && NoZeros(q.dims)
  }

  function Power(x: real, e: nat): (r: real)
    ensures x > 0.0 ==> r > 0.0
  {
    if e == 0 then 1.0 else x * Power(x, e - 1)
  }

  function Pow(x: real, e: int): (r: real)
    requires x > 0.0
    ensures r > 0.0
  {
    if e >= 0 then Power(x, e) else 1.0 / Power(x, -e)
  }

  function Times(a: Quantity, b: Quantity): (r: Quantity)
    requires a.factor > 0.0 && b.factor > 0.0
    ensures Proper(r)
  {
    Quantity(a.factor * b.factor, Sum(a.dims, b.dims, 1))
  }

  function Inverse(q: Quantity): (r: Quantity)
    requires q.factor > 0.0
    ensures Proper(r)
  {
    Quantity(1.0 / q.factor, Sum(map[], q.dims, -1))
  }

  function Raised(q: Quantity, e: int): (r: Quantity)
    requires q.factor > 0.0
    ensures Proper(r)
  {
    Quantity(Pow(q.factor, e), Sum(map[], q.dims, e))
  }

  lemma TimesAssociates(a: Quantity, b: Quantity, c: Quantity)
    requires Proper(a) && Proper(b) && Proper(c)
    ensures Times(Times(a, b), c) == Times(a, Times(b, c))
  {
    SameExponentsSameMap(Times(Times(a, b), c).dims, Times(a, Times(b, c)).dims);
  }

  lemma OneIsNeutral(a: Quantity)
    requires Proper(a)
    ensures Times(a, ONE) == a && Times(ONE, a) == a
  {
  }

  lemma InverseOfProduct(a: Quantity, b: Quantity)
    requires Proper(a) && Proper(b)
    ensures Inverse(Times(a, b)) == Times(Inverse(a), Inverse(b))
  {
    SameExponentsSameMap(Inverse(Times(a, b)).dims, Times(Inverse(a), Inverse(b)).dims);
    var x, y := a.factor, b.factor;
    assert (1.0 / x) * (1.0 / y) == 1.0 / (x * y);
  }

  lemma TimesCancels(a: Quantity, b: Quantity, c: Quantity)
    requires Proper(a) && Proper(b) && Proper(c) && Times(a, b) == Times(a, c)
    ensures b == c
  {
    forall name ensures Exponent(b.dims, name) == Exponent(c.dims, name) {
      assert Exponent(Times(a, b).dims, name) == Exponent(Times(a, c).dims, name);
    }
    SameExponentsSameMap(b.dims, c.dims);
    assert a.factor * b.factor == a.factor * c.factor;
  }

  /** Only the neutral quantity is its own inverse. */
  lemma SelfInverse(q: Quantity)
    requires Proper(q)
    ensures q == Inverse(q) <==> q == ONE
  {
  }

  lemma RaisedBack(q: Quantity, e: int)
    requires Proper(q)
    ensures Raised(q, -e) == Inverse(Raised(q, e))
  {
  }

  // ---------- reading an expression ----------

  predicate IsSign(c: char) {
    c == '*' || c == '/'
  }

  predicate IsOperator(token: string) {
    token == "*" || token == "/"
  }

  function UnitRest(s: string): (r: string)
    ensures |r| <= |s|
  {
    if s != "" && !IsSpace(s[0]) && !IsSign(s[0]) then UnitRest(s[1..]) else s
  }

  /** Operator signs, and the runs of other characters between them and between blanks. */
  function UnitTokens(s: string): (r: seq<string>)
    decreases |s|
  {
    if s == "" then []
    else if IsSpace(s[0]) then UnitTokens(s[1..])
    else if IsSign(s[0]) then [s[..1]] + UnitTokens(s[1..])
    else
      var rest := UnitRest(s[1..]);
      [s[..|s| - |rest|]] + UnitTokens(rest)
  }

  lemma UnitTokensStep(s: string, i: nat)
    requires i < |s|
    ensures IsSpace(s[i]) ==> UnitTokens(s[i..]) == UnitTokens(s[i + 1..])
    ensures !IsSpace(s[i]) && IsSign(s[i]) ==> UnitTokens(s[i..]) == [[s[i]]] + UnitTokens(s[i + 1..])
    ensures !IsSpace(s[i]) && !IsSign(s[i]) ==>
              forall j :: i < j <= |s| && s[j..] == UnitRest(s[i + 1..]) ==> UnitTokens(s[i..]) == [s[i..j]] + UnitTokens(s[j..])
  {
    assert s[i..][1..] == s[i + 1..] && s[i..][..1] == [s[i]];
    forall j | i < j <= |s| && s[j..] == UnitRest(s[i + 1..]) ensures s[i..][..|s[i..]| - |s[j..]|] == s[i..j] {
      assert |s[i..]| - |s[j..]| == j - i;
    }
  }

  method ScanUnit(s: string, start: nat) returns (j: nat)
    requires start <= |s|
    ensures start <= j <= |s| && s[j..] == UnitRest(s[start..])
  {
    j := start;
    while j < |s| && !IsSpace(s[j]) && !IsSign(s[j])
      invariant start <= j <= |s|
      invariant UnitRest(s[j..]) == UnitRest(s[start..])
    {
      assert s[j..][1..] == s[j + 1..];
      j := j + 1;
    }
  }

  lemma NoTokensLeft(s: string)
    ensures UnitTokens(s[|s|..]) == []
  {
  }

  method SplitUnits(s: string) returns (tokens: seq<string>)
    ensures tokens == UnitTokens(s)
  {
    hide UnitRest, IsSpace, IsSign, UnitTokens;
    tokens := [];
    var i := 0;
    assert s[0..] == s;
    while i < |s|
      invariant 0 <= i <= |s|
      invariant tokens + UnitTokens(s[i..]) == UnitTokens(s)
    {
      UnitTokensStep(s, i);
      ghost var before, rest := tokens, i;
      if IsSpace(s[i]) {
        i := i + 1;
      } else if IsSign(s[i]) {
        tokens := tokens + [[s[i]]];
        i := i + 1;
        assert before + ([[s[rest]]] + UnitTokens(s[i..])) == tokens + UnitTokens(s[i..]);
      } else {
        var j := ScanUnit(s, i + 1);
        tokens := tokens + [s[i..j]];
        i := j;
        assert before + ([s[rest..j]] + UnitTokens(s[i..])) == tokens + UnitTokens(s[i..]);
      }
    }
    NoTokensLeft(s);
  }

  /** A trailing 2 or 3 is an exponent, unless nothing stands before it. */
  predicate HasExponent(token: string) {
    |token| > 1 && (token[|token| - 1] == '2' || token[|token| - 1] == '3')
  }

  function UnitBase(token: string): string {
    if HasExponent(token) then token[..|token| - 1] else token
  }

  function UnitExponent(token: string): (e: int)
    ensures 1 <= e <= 3
  {
    if !HasExponent(token) then 1 else if token[|token| - 1] == '2' then 2 else 3
  }

  type Table = string -> Option<Quantity>

  ghost predicate ProperTable(table: Table) {
    forall name :: table(name).Some? ==> Proper(table(name).value) && Named(table(name).value.dims)
  }

  function Known(table: Table, token: string): Option<Quantity> {
    table(UnitBase(token))
  }

  /** One more unit, with the sign of the operator before it. */
  function Multiplied(acc: Quantity, spec: Quantity, e: int): (r: Quantity)
    requires acc.factor > 0.0 && spec.factor > 0.0
    ensures r.factor > 0.0
  {
    Quantity(acc.factor * Pow(spec.factor, e), Sum(acc.dims, spec.dims, e))
  }

  /** The loop over the tokens; op is the sign that the next unit's exponent gets. */
  ghost function Read(table: Table, tokens: seq<string>, op: int, acc: Quantity): Option<Quantity>
    requires ProperTable(table) && acc.factor > 0.0
    decreases |tokens|
  {
    if tokens == [] then Some(acc)
    else if tokens[0] == "*" then Read(table, tokens[1..], 1, acc)
    else if tokens[0] == "/" then Read(table, tokens[1..], -1, acc)
    else
      var spec :- Known(table, tokens[0]);
      var e := UnitExponent(tokens[0]) * op;
      Read(table, tokens[1..], 1, Multiplied(acc, spec, e))
  }

  predicate Contains(s: string, part: string) {
    exists i :: 0 <= i <= |s| && part <= s[i..]
  }

  /** A text with the letters of a conversion word anywhere in it is refused. */
  predicate HasConversionWord(s: string) {
    Contains(s, "to") || Contains(s, "in")
  }

  ghost function ParseUnits(table: Table, text: string): Option<Quantity>
    requires ProperTable(table)
  {
    if HasConversionWord(text) || UnitTokens(text) == [] then None
    else Read(table, UnitTokens(text), 1, ONE)
  }

  datatype UnitSpec = UnitSpec(quantity: Quantity, dimKey: string)

  ghost function Spec(table: Table, text: string): Option<UnitSpec>
    requires ProperTable(table)
  {
    var q :- ParseUnits(table, text);
    Some(UnitSpec(q, DimKey(q.dims)))
  }

  method ParseUnitExpression(table: Table, text: string) returns (r: Option<UnitSpec>)
    requires ProperTable(table)
    ensures r == Spec(table, text)
  {
    hide Read, Sum, Pow, DimKey, HasConversionWord, UnitTokens;
    if HasConversionWord(text) {
      return None;
    }
    var tokens := SplitUnits(text);
    if |tokens| == 0 {
      return None;
    }
    var dims: Dims, factor, op, i := map[], 1.0, 1, 0;
    assert tokens[0..] == tokens;
    while i < |tokens|
      invariant 0 <= i <= |tokens| && factor > 0.0 && NoZeros(dims) && Named(dims)
      invariant Read(table, tokens[i..], op, Quantity(factor, dims)) == Read(table, tokens, 1, ONE)
    {
      ghost var acc, sign := Quantity(factor, dims), op;
      ReadStep(table, tokens, i, op, acc);
      var token := tokens[i];
      i := i + 1;
      if token == "*" {
        op := 1;
        continue;
      }
      if token == "/" {
        op := -1;
        continue;
      }
      var spec := table(UnitBase(token));
      if spec.None? {
        return None;
      }
      SumNamed(dims, spec.value.dims, UnitExponent(token) * op);
      factor := factor * Pow(spec.value.factor, UnitExponent(token) * op);
      dims := UnitDimAdd(dims, spec.value.dims, UnitExponent(token) * op);
      op := 1;
      assert spec == Known(table, token);
      assert Quantity(factor, dims) == Multiplied(acc, spec.value, UnitExponent(token) * sign);
    }
    ReadEnd(table, tokens, op, Quantity(factor, dims));
    var key := UnitDimKey(dims);
    return Some(UnitSpec(Quantity(factor, dims), key));
  }

  lemma ReadStep(table: Table, tokens: seq<string>, i: nat, op: int, acc: Quantity)
    requires ProperTable(table) && acc.factor > 0.0 && i < |tokens|
    ensures var token := tokens[i];
            Read(table, tokens[i..], op, acc) ==
            if token == "*" then Read(table, tokens[i + 1..], 1, acc)
            else if token == "/" then Read(table, tokens[i + 1..], -1, acc)
            else if Known(table, token).None? then None
            else Read(table, tokens[i + 1..], 1, Multiplied(acc, Known(table, token).value, UnitExponent(token) * op))
  {
  }

  lemma ReadEnd(table: Table, tokens: seq<string>, op: int, acc: Quantity)
    requires ProperTable(table) && acc.factor > 0.0
    ensures Read(table, tokens[|tokens|..], op, acc) == Some(acc)
  {
  }

  lemma SumNamed(a: Dims, b: Dims, m: int)
    requires Named(a) && Named(b)
    ensures Named(Sum(a, b, m))
  {
  }

  // ---------- what an expression means ----------

  ghost predicate AllKnown(table: Table, tokens: seq<string>) {
    forall i :: 0 <= i < |tokens| ==> IsOperator(tokens[i]) || Known(table, tokens[i]).Some?
  }

  /** A unit counts inversely exactly if a division sign stands right before it. */
  function SignAt(tokens: seq<string>, i: nat): int
    requires i <= |tokens|
  {
    if i > 0 && tokens[i - 1] == "/" then -1 else 1
  }

  ghost function FactorAt(table: Table, tokens: seq<string>, i: nat): (r: Quantity)
    requires ProperTable(table) && AllKnown(table, tokens) && i < |tokens|
    ensures Proper(r)
  {
    if IsOperator(tokens[i]) then ONE
    else Raised(Known(table, tokens[i]).value, UnitExponent(tokens[i]) * SignAt(tokens, i))
  }

  ghost function Product(table: Table, tokens: seq<string>, n: nat): (r: Quantity)
    requires ProperTable(table) && AllKnown(table, tokens) && n <= |tokens|
    ensures Proper(r)
  {
    if n == 0 then ONE else Times(Product(table, tokens, n - 1), FactorAt(table, tokens, n - 1))
  }

  lemma MultipliedIsTimes(acc: Quantity, spec: Quantity, e: int)
    requires Proper(acc) && Proper(spec)
    ensures Multiplied(acc, spec, e) == Times(acc, Raised(spec, e))
  {
  }

  lemma ReadOperator(table: Table, tokens: seq<string>, i: nat)
    requires ProperTable(table) && AllKnown(table, tokens) && i < |tokens| && IsOperator(tokens[i])
    ensures Read(table, tokens[i..], SignAt(tokens, i), Product(table, tokens, i)) ==
            Read(table, tokens[i + 1..], SignAt(tokens, i + 1), Product(table, tokens, i + 1))
  {
    hide Read;
    ReadStep(table, tokens, i, SignAt(tokens, i), Product(table, tokens, i));
    OneIsNeutral(Product(table, tokens, i));
  }

  lemma ReadUnit(table: Table, tokens: seq<string>, i: nat)
    requires ProperTable(table) && AllKnown(table, tokens) && i < |tokens| && !IsOperator(tokens[i])
    ensures Read(table, tokens[i..], SignAt(tokens, i), Product(table, tokens, i)) ==
            Read(table, tokens[i + 1..], SignAt(tokens, i + 1), Product(table, tokens, i + 1))
  {
    hide Read, Multiplied, Times, Raised;
    ReadStep(table, tokens, i, SignAt(tokens, i), Product(table, tokens, i));
    MultipliedIsTimes(Product(table, tokens, i), Known(table, tokens[i]).value, UnitExponent(tokens[i]) * SignAt(tokens, i));
  }

  lemma {:induction false} ReadFrom(table: Table, tokens: seq<string>, i: nat)
    requires ProperTable(table) && AllKnown(table, tokens) && i <= |tokens|
    ensures Read(table, tokens[i..], SignAt(tokens, i), Product(table, tokens, i)) == Some(Product(table, tokens, |tokens|))
    decreases |tokens| - i
  {
    hide Read, Product, AllKnown, SignAt, ProperTable;
    if i < |tokens| {
      if IsOperator(tokens[i]) {
        ReadOperator(table, tokens, i);
      } else {
        ReadUnit(table, tokens, i);
      }
      ReadFrom(table, tokens, i + 1);
    } else {
      ReadEnd(table, tokens, SignAt(tokens, i), Product(table, tokens, i));
    }
  }

  lemma {:induction false} ReadRejects(table: Table, tokens: seq<string>, op: int, acc: Quantity)
    requires ProperTable(table) && acc.factor > 0.0 && !AllKnown(table, tokens)
    ensures Read(table, tokens, op, acc).None?
    decreases |tokens|
  {
    if IsOperator(tokens[0]) || Known(table, tokens[0]).Some? {
      assert tokens == [tokens[0]] + tokens[1..];
      assert !AllKnown(table, tokens[1..]);
      ReadStep(table, tokens, 0, op, acc);
      assert tokens[0..] == tokens;
      if tokens[0] == "*" {
        ReadRejects(table, tokens[1..], 1, acc);
      } else if tokens[0] == "/" {
        ReadRejects(table, tokens[1..], -1, acc);
      } else {
        ReadRejects(table, tokens[1..], 1, Multiplied(acc, Known(table, tokens[0]).value, UnitExponent(tokens[0]) * op));
      }
    }
  }

  /** An expression is read exactly if all its units are known, and then as the product of its signed powers. */
  lemma ReadMeans(table: Table, tokens: seq<string>)
    requires ProperTable(table)
    ensures Read(table, tokens, 1, ONE).Some? <==> AllKnown(table, tokens)
    ensures AllKnown(table, tokens) ==> Read(table, tokens, 1, ONE) == Some(Product(table, tokens, |tokens|))
  {
    if AllKnown(table, tokens) {
      ReadFrom(table, tokens, 0);
      assert tokens[0..] == tokens;
    } else {
      ReadRejects(table, tokens, 1, ONE);
    }
  }

  /** A text without the letters of a conversion word is read exactly if it has tokens and all its units are known; with
      them it is not read, whatever its units. */
  lemma TextIsReadExactly(table: Table, text: string)
    requires ProperTable(table)
    ensures ParseUnits(table, text).Some? <==>
            !HasConversionWord(text) && UnitTokens(text) != [] && AllKnown(table, UnitTokens(text))
    ensures ParseUnits(table, text).Some? ==>
              ParseUnits(table, text) == Some(Product(table, UnitTokens(text), |UnitTokens(text)|))
  {
    ReadMeans(table, UnitTokens(text));
  }

  /** So a text of known units, which ought to be read, is refused exactly for those letters. */
  lemma KnownUnitsRefusedExactly(table: Table, text: string)
    requires ProperTable(table) && UnitTokens(text) != [] && AllKnown(table, UnitTokens(text))
    ensures ParseUnits(table, text).None? <==> HasConversionWord(text)
  {
    TextIsReadExactly(table, text);
  }

  // ---------- products and quotients of texts ----------

  lemma {:induction false} RestOfJoined(a: string, c: char, b: string)
    requires IsSign(c)
    ensures UnitRest(a + [c] + b) == UnitRest(a) + [c] + b
  {
    if a != "" {
      assert (a + [c] + b)[1..] == a[1..] + [c] + b;
      if !IsSpace(a[0]) && !IsSign(a[0]) {
        RestOfJoined(a[1..], c, b);
      }
    } else {
      assert a + [c] + b == [c] + b;
    }
  }

  /** The first token of a text, and the text after it. */
  function TokenLength(s: string): (n: nat)
    requires s != "" && !IsSpace(s[0])
    ensures 1 <= n <= |s|
  {
    if IsSign(s[0]) then 1 else |s| - |UnitRest(s[1..])|
  }

  lemma FirstToken(s: string)
    requires s != ""
    ensures IsSpace(s[0]) ==> UnitTokens(s) == UnitTokens(s[1..])
    ensures !IsSpace(s[0]) ==> UnitTokens(s) == [s[..TokenLength(s)]] + UnitTokens(s[TokenLength(s)..])
  {
    hide IsSpace, IsSign, UnitRest;
    if !IsSpace(s[0]) && !IsSign(s[0]) {
      var tail := s[1..];
      var rest := UnitRest(tail);
      RestIsSuffix(tail);
      assert rest == s[|s| - |rest|..];
      assert TokenLength(s) == |s| - |rest|;
      assert UnitTokens(s) == [s[..|s| - |rest|]] + UnitTokens(rest);
    }
  }

  lemma {:induction false} RestIsSuffix(s: string)
    ensures UnitRest(s) == s[|s| - |UnitRest(s)|..]
  {
    if s != "" && !IsSpace(s[0]) && !IsSign(s[0]) {
      RestIsSuffix(s[1..]);
    }
  }

  lemma SignToken(c: char, b: string)
    requires IsSign(c)
    ensures UnitTokens([c] + b) == [[c]] + UnitTokens(b) && !IsSpace(c)
  {
  }

  lemma SameFirstToken(a: string, c: char, b: string)
    requires IsSign(c) && a != "" && !IsSpace(a[0])
    ensures (a + [c] + b)[0] == a[0] && TokenLength(a + [c] + b) == TokenLength(a)
  {
    RestOfJoined(a[1..], c, b);
    assert (a + [c] + b)[1..] == a[1..] + [c] + b;
  }

  lemma {:induction false} TokensOfJoined(a: string, c: char, b: string)
    requires IsSign(c)
    ensures UnitTokens(a + [c] + b) == UnitTokens(a) + [[c]] + UnitTokens(b)
    decreases |a|
  {
    hide IsSpace, TokenLength, UnitRest, IsSign, UnitTokens;
    var s := a + [c] + b;
    if a == "" {
      SignToken(c, b);
      NoTokensLeft(a);
      assert a[|a|..] == a && s == [c] + b;
    } else {
      FirstToken(s);
      FirstToken(a);
      assert s[0] == a[0];
      if IsSpace(a[0]) {
        assert s[1..] == a[1..] + [c] + b;
        TokensOfJoined(a[1..], c, b);
      } else {
        SameFirstToken(a, c, b);
        var n, rest := TokenLength(a), UnitTokens(a[TokenLength(a)..]);
        assert s[n..] == a[n..] + [c] + b && s[..n] == a[..n];
        TokensOfJoined(a[n..], c, b);
        assert [a[..n]] + (rest + [[c]] + UnitTokens(b)) == ([a[..n]] + rest) + [[c]] + UnitTokens(b);
      }
    }
  }

  lemma OccurrenceAvoids(s: string, i: nat, word: string, c: char)
    requires i <= |s| && word <= s[i..] && c !in word
    ensures forall k :: i <= k < i + |word| ==> s[k] != c
  {
  }

  lemma ContainsInJoined(a: string, c: char, b: string, word: string)
    requires c !in word && |word| > 0
    ensures Contains(a + [c] + b, word) <==> Contains(a, word) || Contains(b, word)
  {
    var s := a + [c] + b;
    if Contains(a, word) {
      var i :| 0 <= i <= |a| && word <= a[i..];
      assert s[i..] == a[i..] + [c] + b;
      assert word <= s[i..];
    }
    if Contains(b, word) {
      var i :| 0 <= i <= |b| && word <= b[i..];
      assert s[|a| + 1 + i..] == b[i..];
    }
    if Contains(s, word) {
      var i :| 0 <= i <= |s| && word <= s[i..];
      OccurrenceAvoids(s, i, word, c);
      assert s[|a|] == c;
      if i > |a| {
        assert s[i..] == b[i - |a| - 1..];
      } else if i + |word| <= |a| {
        assert word <= a[i..];
      } else {
        assert false;
      }
    }
  }

  lemma WordsInJoined(a: string, c: char, b: string)
    requires IsSign(c)
    ensures HasConversionWord(a + [c] + b) <==> HasConversionWord(a) || HasConversionWord(b)
  {
    ContainsInJoined(a, c, b, "to");
    ContainsInJoined(a, c, b, "in");
  }

  lemma {:induction false} ReadThrough(table: Table, left: seq<string>, c: char, right: seq<string>, op: int, acc: Quantity)
    requires ProperTable(table) && acc.factor > 0.0 && IsSign(c)
    ensures Read(table, left + [[c]] + right, op, acc) ==
            match Read(table, left, op, acc)
            case None => None
            case Some(q) => if q.factor > 0.0 then Read(table, right, if c == '*' then 1 else -1, q) else None
    ensures Read(table, left, op, acc).Some? ==> Read(table, left, op, acc).value.factor > 0.0
    decreases |left|
  {
    var all := left + [[c]] + right;
    assert all[0..] == all && left[0..] == left;
    ReadStep(table, all, 0, op, acc);
    if left == [] {
      assert all[1..] == right;
    } else {
      ReadStep(table, left, 0, op, acc);
      assert all[1..] == left[1..] + [[c]] + right && all[0] == left[0];
      if left[0] == "*" {
        ReadThrough(table, left[1..], c, right, 1, acc);
      } else if left[0] == "/" {
        ReadThrough(table, left[1..], c, right, -1, acc);
      } else if Known(table, left[0]).Some? {
        ReadThrough(table, left[1..], c, right, 1, Multiplied(acc, Known(table, left[0]).value, UnitExponent(left[0]) * op));
      }
    }
  }

  /** What was read before multiplies what is read after. */
  lemma {:induction false} ReadScales(table: Table, tokens: seq<string>, op: int, acc: Quantity)
    requires ProperTable(table) && Proper(acc)
    ensures Read(table, tokens, op, ONE).Some? ==> Proper(Read(table, tokens, op, ONE).value)
    ensures Read(table, tokens, op, acc) ==
            match Read(table, tokens, op, ONE)
            case None => None
            case Some(q) => if Proper(q) then Some(Times(acc, q)) else None
    decreases |tokens|
  {
    if tokens == [] {
      OneIsNeutral(acc);
    } else {
      assert tokens[0..] == tokens;
      ReadStep(table, tokens, 0, op, acc);
      ReadStep(table, tokens, 0, op, ONE);
      var rest := tokens[1..];
      if tokens[0] == "*" {
        ReadScales(table, rest, 1, acc);
      } else if tokens[0] == "/" {
        ReadScales(table, rest, -1, acc);
      } else if Known(table, tokens[0]).Some? {
        var spec, e := Known(table, tokens[0]).value, UnitExponent(tokens[0]) * op;
        var unit := Raised(spec, e);
        MultipliedIsTimes(acc, spec, e);
        MultipliedIsTimes(ONE, spec, e);
        OneIsNeutral(unit);
        ReadScales(table, rest, 1, Times(acc, unit));
        ReadScales(table, rest, 1, unit);
        if Read(table, rest, 1, ONE).Some? {
          TimesAssociates(acc, unit, Read(table, rest, 1, ONE).value);
        }
      }
    }
  }

  lemma ParseIsProper(table: Table, text: string)
    requires ProperTable(table) && ParseUnits(table, text).Some?
    ensures Proper(ParseUnits(table, text).value)
  {
    ReadScales(table, UnitTokens(text), 1, ONE);
  }

  /** A product of texts is read exactly if both are, and as the product of the two. */
  lemma ProductOfTexts(table: Table, a: string, b: string)
    requires ProperTable(table) && UnitTokens(a) != [] && UnitTokens(b) != []
    ensures ParseUnits(table, a + "*" + b).Some? <==> ParseUnits(table, a).Some? && ParseUnits(table, b).Some?
    ensures ParseUnits(table, a).Some? && ParseUnits(table, b).Some? ==>
              var x, y := ParseUnits(table, a).value, ParseUnits(table, b).value;
              Proper(x) && Proper(y) && ParseUnits(table, a + "*" + b) == Some(Times(x, y))
  {
    var ta, tb := UnitTokens(a), UnitTokens(b);
    assert a + "*" + b == a + ['*'] + b;
    TokensOfJoined(a, '*', b);
    WordsInJoined(a, '*', b);
    ReadThrough(table, ta, '*', tb, 1, ONE);
    ReadScales(table, ta, 1, ONE);
    if Read(table, ta, 1, ONE).Some? {
      ReadScales(table, tb, 1, Read(table, ta, 1, ONE).value);
    }
  }

  /** What a division sign before these tokens does not invert: all but the first unit. */
  function NotInverted(tokens: seq<string>): seq<string>
    requires tokens != []
  {
    if IsOperator(tokens[0]) then tokens else tokens[1..]
  }

  /** What it does invert. */
  ghost function Inverted(table: Table, tokens: seq<string>): (r: Quantity)
    requires ProperTable(table) && tokens != [] && AllKnown(table, tokens)
    ensures Proper(r)
  {
    if IsOperator(tokens[0]) then ONE else Raised(Known(table, tokens[0]).value, UnitExponent(tokens[0]))
  }

  ghost function Meaning(table: Table, tokens: seq<string>): (r: Quantity)
    requires ProperTable(table) && AllKnown(table, tokens)
    ensures Proper(r)
  {
    Product(table, tokens, |tokens|)
  }

  lemma MeaningIsRead(table: Table, tokens: seq<string>)
    requires ProperTable(table) && AllKnown(table, tokens)
    ensures Read(table, tokens, 1, ONE) == Some(Meaning(table, tokens))
  {
    ReadMeans(table, tokens);
  }

  lemma OneUnit(spec: Quantity, e: int)
    requires Proper(spec)
    ensures Multiplied(ONE, spec, e) == Raised(spec, e)
  {
  }

  lemma NotInvertedKnown(table: Table, tokens: seq<string>)
    requires ProperTable(table) && tokens != [] && AllKnown(table, tokens)
    ensures AllKnown(table, NotInverted(tokens))
  {
  }

  lemma FirstUnit(table: Table, tokens: seq<string>, op: int)
    requires ProperTable(table) && tokens != [] && AllKnown(table, tokens) && !IsOperator(tokens[0])
    ensures Read(table, tokens, op, ONE) ==
            Some(Times(Raised(Known(table, tokens[0]).value, UnitExponent(tokens[0]) * op), Meaning(table, tokens[1..])))
  {
    var spec, e := Known(table, tokens[0]).value, UnitExponent(tokens[0]) * op;
    assert tokens[0..] == tokens;
    ReadStep(table, tokens, 0, op, ONE);
    OneUnit(spec, e);
    MeaningIsRead(table, tokens[1..]);
    ReadScales(table, tokens[1..], 1, Raised(spec, e));
  }

  lemma FirstOperator(table: Table, tokens: seq<string>)
    requires ProperTable(table) && tokens != [] && IsOperator(tokens[0])
    ensures Read(table, tokens, -1, ONE) == Read(table, tokens, 1, ONE)
  {
  }

  /** Reading with a division sign before: the first unit is inverted, the rest is not. */
  lemma ReadInverted(table: Table, tokens: seq<string>)
    requires ProperTable(table) && tokens != [] && AllKnown(table, tokens)
    ensures AllKnown(table, NotInverted(tokens))
    ensures Meaning(table, tokens) == Times(Inverted(table, tokens), Meaning(table, NotInverted(tokens)))
    ensures Read(table, tokens, -1, ONE) ==
            Some(Times(Inverse(Inverted(table, tokens)), Meaning(table, NotInverted(tokens))))
  {
    NotInvertedKnown(table, tokens);
    MeaningIsRead(table, tokens);
    hide Meaning, Read, Times, Raised, Pow, Sum, Inverse;
    if IsOperator(tokens[0]) {
      FirstOperator(table, tokens);
      OneIsNeutral(Meaning(table, tokens));
      SelfInverse(ONE);
    } else {
      FirstUnit(table, tokens, 1);
      FirstUnit(table, tokens, -1);
      RaisedBack(Known(table, tokens[0]).value, UnitExponent(tokens[0]));
    }
  }

  /** What a quotient of two texts is read as. */
  lemma QuotientIsRead(table: Table, a: string, b: string)
    requires ProperTable(table) && ParseUnits(table, a).Some? && ParseUnits(table, b).Some?
    ensures var ta, tb := UnitTokens(a), UnitTokens(b);
            && AllKnown(table, ta) && AllKnown(table, tb) && tb != [] && AllKnown(table, NotInverted(tb))
            && ParseUnits(table, a) == Some(Meaning(table, ta)) && ParseUnits(table, b) == Some(Meaning(table, tb))
            && ParseUnits(table, a + "/" + b) ==
               Some(Times(Meaning(table, ta), Times(Inverse(Inverted(table, tb)), Meaning(table, NotInverted(tb)))))
  {
    var ta, tb := UnitTokens(a), UnitTokens(b);
    assert a + "/" + b == a + ['/'] + b;
    TokensOfJoined(a, '/', b);
    WordsInJoined(a, '/', b);
    ReadMeans(table, ta);
    ReadMeans(table, tb);
    MeaningIsRead(table, ta);
    MeaningIsRead(table, tb);
    ReadThrough(table, ta, '/', tb, 1, ONE);
    ReadInverted(table, tb);
    ReadScales(table, tb, -1, Meaning(table, ta));
  }

  /** Such a product with part of y inverted is x divided by y exactly if the other part is neutral. */
  lemma DividesExactly(x: Quantity, first: Quantity, rest: Quantity)
    requires Proper(x) && Proper(first) && Proper(rest)
    ensures Times(x, Times(Inverse(first), rest)) == Times(x, Inverse(Times(first, rest))) <==> rest == ONE
  {
    InverseOfProduct(first, rest);
    SelfInverse(rest);
    var part, whole := Times(Inverse(first), rest), Times(Inverse(first), Inverse(rest));
    assert Inverse(Times(first, rest)) == whole;
    hide Times, Inverse, Proper;
    if Times(x, part) == Times(x, whole) {
      TimesCancels(x, part, whole);
      TimesCancels(Inverse(first), rest, Inverse(rest));
    }
  }

  /** A quotient of texts is the quotient of the two exactly if what follows the first unit of the divisor is neutral. */
  lemma QuotientOfTexts(table: Table, a: string, b: string)
    requires ProperTable(table) && ParseUnits(table, a).Some? && ParseUnits(table, b).Some?
    ensures var x, y := ParseUnits(table, a).value, ParseUnits(table, b).value;
            && Proper(x) && Proper(y) && ParseUnits(table, a + "/" + b).Some?
            && (ParseUnits(table, a + "/" + b) == Some(Times(x, Inverse(y))) <==>
                Read(table, NotInverted(UnitTokens(b)), 1, ONE) == Some(ONE))
  {
    var ta, tb := UnitTokens(a), UnitTokens(b);
    QuotientIsRead(table, a, b);
    ReadInverted(table, tb);
    MeaningIsRead(table, NotInverted(tb));
    hide Meaning, ParseUnits, Read, Times, Inverse, Inverted, NotInverted;
    DividesExactly(Meaning(table, ta), Inverted(table, tb), Meaning(table, NotInverted(tb)));
  }

  /** In particular, dividing by a single unit is dividing. */
  lemma QuotientByUnit(table: Table, a: string, b: string)
    requires ProperTable(table) && ParseUnits(table, a).Some? && ParseUnits(table, b).Some?
    requires |UnitTokens(b)| == 1 && !IsOperator(UnitTokens(b)[0])
    ensures var x, y := ParseUnits(table, a).value, ParseUnits(table, b).value;
            Proper(x) && Proper(y) && ParseUnits(table, a + "/" + b) == Some(Times(x, Inverse(y)))
  {
    QuotientOfTexts(table, a, b);
  }

  /** Dividing by a unit times itself, spelled out, therefore divides by nothing: m/s*s is m. */
  lemma SpelledOutSquareCancels(table: Table, a: string, b: string, unit: string)
    requires ProperTable(table) && ParseUnits(table, a).Some? && ParseUnits(table, b).Some?
    requires UnitTokens(b) == [unit, "*", unit] && !IsOperator(unit)
    ensures ParseUnits(table, a + "/" + b) == ParseUnits(table, a)
  {
    var x, tb := ParseUnits(table, a).value, UnitTokens(b);
    QuotientIsRead(table, a, b);
    ParseIsProper(table, a);
    SquareHalves(table, tb, unit);
    var u := Inverted(table, tb);
    hide *;
    InverseCancels(u);
    OneIsNeutral(x);
  }

  lemma InverseCancels(u: Quantity)
    requires Proper(u)
    ensures Times(Inverse(u), u) == ONE
  {
  }

  lemma SquareHalves(table: Table, tokens: seq<string>, unit: string)
    requires ProperTable(table) && AllKnown(table, tokens) && tokens == [unit, "*", unit] && !IsOperator(unit)
    ensures Meaning(table, NotInverted(tokens)) == Inverted(table, tokens)
  {
    var rest, one, u := NotInverted(tokens), [unit], Inverted(table, tokens);
    assert tokens[0] == unit;
    assert rest == ["*", unit] && rest[1..] == one && rest[0..] == rest && one[1..] == [];
    MeaningIsRead(table, rest);
    ReadStep(table, rest, 0, 1, ONE);
    FirstUnit(table, one, 1);
    MeaningIsRead(table, []);
    hide Times, Raised, Meaning;
    OneIsNeutral(u);
  }

  /** Two entries of the source's table. */
  function MetreAndSecond(name: string): Option<Quantity> {
    if name == "m" then Some(Quantity(1.0, map["L" := 1]))
    else if name == "s" then Some(Quantity(1.0, map["T" := 1]))
    else None
  }

  predicate IsLetter(name: string) {
    |name| == 1 && !IsSpace(name[0]) && !IsSign(name[0])
  }

  lemma LetterIsToken(name: string)
    requires IsLetter(name)
    ensures UnitTokens(name) == [name]
  {
    hide IsSpace, IsSign, UnitTokens;
    FirstToken(name);
    NoTokensLeft(name);
    assert TokenLength(name) == 1 && name[..1] == name;
  }

  lemma LetterHasNoWord(name: string)
    requires IsLetter(name)
    ensures !HasConversionWord(name)
  {
  }

  lemma LetterIsKnown(table: Table, name: string)
    requires IsLetter(name) && table(name).Some?
    ensures AllKnown(table, [name]) && AllKnown(table, [name, "*", name]) && !IsOperator(name) && !HasExponent(name)
  {
    assert UnitBase(name) == name;
  }

  lemma LetterIsRead(table: Table, name: string)
    requires ProperTable(table) && IsLetter(name) && table(name).Some?
    ensures ParseUnits(table, name).Some?
  {
    hide IsLetter, UnitTokens, HasConversionWord, Read, AllKnown;
    LetterIsToken(name);
    LetterHasNoWord(name);
    LetterIsKnown(table, name);
    ReadMeans(table, [name]);
  }

  lemma LetterSquared(table: Table, name: string)
    requires ProperTable(table) && IsLetter(name) && table(name).Some?
    ensures UnitTokens(name + "*" + name) == [name, "*", name] && ParseUnits(table, name + "*" + name).Some?
  {
    hide IsLetter, UnitTokens, HasConversionWord, Read, ParseUnits, IsSign, Times;
    LetterIsToken(name);
    LetterIsRead(table, name);
    StarIsSign();
    TokensOfJoined(name, '*', name);
    assert name + "*" + name == name + ['*'] + name;
    assert [name] + ["*"] + [name] == [name, "*", name];
    ProductOfTexts(table, name, name);
  }

  lemma StarIsSign()
    ensures IsSign('*')
  {
  }

  lemma SquareIsNotNeutral(table: Table, name: string, dimension: string)
    requires ProperTable(table) && AllKnown(table, [name, "*", name]) && !IsOperator(name) && !HasExponent(name)
    requires table(name).Some? && Exponent(table(name).value.dims, dimension) == 1
    ensures Read(table, NotInverted([name, "*", name]), 1, ONE) != Some(ONE)
  {
    var tokens := [name, "*", name];
    SquareHalves(table, tokens, name);
    NotInvertedKnown(table, tokens);
    MeaningIsRead(table, NotInverted(tokens));
    assert Inverted(table, tokens) == Raised(table(name).value, 1);
    assert Exponent(Raised(table(name).value, 1).dims, dimension) == 1;
  }

  /** With these, m/s*s is read as m, not as m divided by s*s. */
  lemma QuotientCanFail()
    ensures ProperTable(MetreAndSecond)
    ensures ParseUnits(MetreAndSecond, "m").Some? && ParseUnits(MetreAndSecond, "s*s").Some?
    ensures var x, y := ParseUnits(MetreAndSecond, "m").value, ParseUnits(MetreAndSecond, "s*s").value;
            && Proper(x) && Proper(y)
            && ParseUnits(MetreAndSecond, "m/s*s") == Some(x)
            && ParseUnits(MetreAndSecond, "m/s*s") != Some(Times(x, Inverse(y)))
  {
    hide Read, ParseUnits, UnitTokens, Times, Inverse, NotInverted, AllKnown;
    assert ProperTable(MetreAndSecond);
    assert IsLetter("m") && IsLetter("s");
    assert "m" + "/" + "s*s" == "m/s*s" && "s" + "*" + "s" == "s*s";
    LetterIsRead(MetreAndSecond, "m");
    LetterIsKnown(MetreAndSecond, "s");
    LetterSquared(MetreAndSecond, "s");
    SpelledOutSquareCancels(MetreAndSecond, "m", "s*s", "s");
    SquareIsNotNeutral(MetreAndSecond, "s", "T");
    QuotientOfTexts(MetreAndSecond, "m", "s*s");
  }

  lemma ExponentOf(name: string, c: char)
    requires name != "" && c in "23"
    ensures HasExponent(name + [c]) && UnitBase(name + [c]) == name && UnitExponent(name + [c]) == if c == '2' then 2 else 3
    ensures !IsOperator(name + [c])
  {
    var token := name + [c];
    assert token[|token| - 1] == c && token[..|token| - 1] == name;
  }

  lemma NoWordInDigit(name: string, c: char)
    requires c in "23"
    ensures HasConversionWord(name + [c]) <==> HasConversionWord(name)
  {
    assert name + [c] + "" == name + [c];
    ContainsInJoined(name, c, "", "to");
    ContainsInJoined(name, c, "", "in");
  }

  lemma PowersAreProducts(q: Quantity)
    requires Proper(q)
    ensures Raised(q, 1) == q && Raised(q, 2) == Times(q, q) && Raised(q, 3) == Times(Times(q, q), q)
  {
    SameExponentsSameMap(Raised(q, 1).dims, q.dims);
    SameExponentsSameMap(Raised(q, 2).dims, Times(q, q).dims);
    SameExponentsSameMap(Raised(q, 3).dims, Times(Times(q, q), q).dims);
    assert Power(q.factor, 1) == q.factor * Power(q.factor, 0) == q.factor;
    assert Power(q.factor, 2) == q.factor * Power(q.factor, 1);
    assert Power(q.factor, 3) == q.factor * Power(q.factor, 2);
  }

  lemma OneTokenMeans(table: Table, token: string)
    requires ProperTable(table) && !IsOperator(token) && Known(table, token).Some?
    ensures Meaning(table, [token]) == Raised(Known(table, token).value, UnitExponent(token))
  {
    var tokens := [token];
    assert tokens[..0] == [];
    hide Raised, Times;
    assert Product(table, tokens, 0) == ONE;
    OneIsNeutral(FactorAt(table, tokens, 0));
    assert Product(table, tokens, 1) == Times(ONE, FactorAt(table, tokens, 0));
  }

  /** A unit with a trailing 2 or 3 is that unit times itself, as often. */
  lemma ExponentIsProduct(table: Table, name: string)
    requires ProperTable(table) && name != "" && !HasExponent(name)
    requires forall i :: 0 <= i < |name| ==> !IsSpace(name[i]) && !IsSign(name[i])
    requires ParseUnits(table, name).Some?
    ensures var x := ParseUnits(table, name).value;
            && Proper(x) && ParseUnits(table, name + "2") == Some(Times(x, x))
            && ParseUnits(table, name + "3") == Some(Times(Times(x, x), x))
  {
    hide IsSpace, IsSign, HasExponent, HasConversionWord, UnitTokens, Read, Raised, Times, IsOperator;
    WordIsToken(name);
    OperatorIsSign(name);
    TextIsReadExactly(table, name);
    ExponentedIsRead(table, name, '2');
    ExponentedIsRead(table, name, '3');
    var x := Known(table, name).value;
    assert AllKnown(table, [name]);
    assert [name][0] == name;
    OneTokenMeans(table, name);
    PowersAreProducts(x);
  }

  lemma OperatorIsSign(name: string)
    requires name != "" && !IsSign(name[0])
    ensures !IsOperator(name)
  {
  }

  lemma ExponentedIsRead(table: Table, name: string, c: char)
    requires ProperTable(table) && name != "" && !HasExponent(name) && c in "23" && !HasConversionWord(name)
    requires forall i :: 0 <= i < |name| ==> !IsSpace(name[i]) && !IsSign(name[i])
    requires Known(table, name).Some?
    ensures ParseUnits(table, name + [c]) == Some(Raised(Known(table, name).value, if c == '2' then 2 else 3))
  {
    var token := name + [c];
    assert !IsSpace(c) && !IsSign(c);
    hide IsSpace, IsSign, HasConversionWord, UnitTokens, Read, Raised, Times, IsOperator;
    assert forall i :: 0 <= i < |token| ==> token[i] == if i < |name| then name[i] else c;
    WordIsToken(token);
    NoWordInDigit(name, c);
    ExponentOf(name, c);
    assert UnitBase(name) == name;
    hide HasExponent, UnitBase, UnitExponent;
    assert Known(table, token) == Known(table, name);
    assert AllKnown(table, [token]);
    TextIsReadExactly(table, token);
    OneTokenMeans(table, token);
  }

  /** A blank separates units as a sign does, and stands for nothing. */
  lemma {:induction false} TokensOfSpaced(a: string, c: char, b: string)
    requires IsSpace(c)
    ensures UnitTokens(a + [c] + b) == UnitTokens(a) + UnitTokens(b)
    decreases |a|
  {
    hide IsSpace, TokenLength, UnitRest, IsSign, UnitTokens;
    var s := a + [c] + b;
    FirstToken(s);
    if a == "" {
      NoTokensLeft(a);
      assert a[|a|..] == a && s[1..] == b && s[0] == c;
    } else {
      FirstToken(a);
      assert s[0] == a[0];
      if IsSpace(a[0]) {
        assert s[1..] == a[1..] + [c] + b;
        TokensOfSpaced(a[1..], c, b);
      } else {
        SameFirstSpaced(a, c, b);
        var n, rest := TokenLength(a), UnitTokens(a[TokenLength(a)..]);
        assert s[n..] == a[n..] + [c] + b && s[..n] == a[..n];
        TokensOfSpaced(a[n..], c, b);
        assert [a[..n]] + (rest + UnitTokens(b)) == ([a[..n]] + rest) + UnitTokens(b);
      }
    }
  }

  lemma SameFirstSpaced(a: string, c: char, b: string)
    requires IsSpace(c) && a != "" && !IsSpace(a[0])
    ensures (a + [c] + b)[0] == a[0] && TokenLength(a + [c] + b) == TokenLength(a)
  {
    hide IsSpace, IsSign;
    RestOfSpaced(a[1..], c, b);
    assert (a + [c] + b)[1..] == a[1..] + [c] + b;
  }

  lemma {:induction false} RestOfSpaced(a: string, c: char, b: string)
    requires IsSpace(c)
    ensures UnitRest(a + [c] + b) == UnitRest(a) + [c] + b
  {
    hide IsSpace, IsSign;
    if a != "" {
      assert (a + [c] + b)[1..] == a[1..] + [c] + b;
      if !IsSpace(a[0]) && !IsSign(a[0]) {
        RestOfSpaced(a[1..], c, b);
      }
    } else {
      assert a + [c] + b == [c] + b;
    }
  }

  /** Three entries of the source's table whose names have those letters. */
  function LetteredTable(name: string): Option<Quantity> {
    if name == "min" then Some(Quantity(60.0, map["T" := 1]))
    else if name == "in" then Some(Quantity(0.0254, map["L" := 1]))
    else if name == "ton" then Some(Quantity(907.18474, map["M" := 1]))
    else None
  }

  lemma WordIsToken(name: string)
    requires name != "" && forall i :: 0 <= i < |name| ==> !IsSpace(name[i]) && !IsSign(name[i])
    ensures UnitTokens(name) == [name]
  {
    hide IsSpace, IsSign;
    NoRest(name[1..]);
    assert name[..|name| - 0] == name;
  }

  lemma {:induction false} NoRest(s: string)
    requires forall i :: 0 <= i < |s| ==> !IsSpace(s[i]) && !IsSign(s[i])
    ensures UnitRest(s) == ""
  {
    if s != "" {
      NoRest(s[1..]);
    }
  }

  lemma ContainsAt(s: string, i: nat, part: string)
    requires i <= |s| && part <= s[i..]
    ensures Contains(s, part)
  {
  }

  lemma LetteredNames(name: string)
    requires name in {"min", "in", "ton"}
    ensures HasConversionWord(name) && !HasExponent(name) && !IsOperator(name)
    ensures forall i :: 0 <= i < |name| ==> !IsSpace(name[i]) && !IsSign(name[i])
  {
    hide Contains;
    assert "min"[1..] == "in" && "in"[0..] == "in" && "ton"[0..] == "to" + "n";
    ContainsAt("min", 1, "in");
    ContainsAt("in", 0, "in");
    ContainsAt("ton", 0, "to");
  }

  /** Minutes, inches and tons are in the table, and by these names they are never read. */
  lemma LetteredUnitsAreRefused(name: string)
    requires name in {"min", "in", "ton"}
    ensures ProperTable(LetteredTable) && UnitTokens(name) == [name] && AllKnown(LetteredTable, [name])
    ensures ParseUnits(LetteredTable, name).None?
  {
    hide HasConversionWord, UnitTokens, HasExponent, IsSpace, IsSign;
    LetteredNames(name);
    WordIsToken(name);
    assert LetteredTable(name).Some?;
  }

  // ---------- conversions ----------

  function Rescale(value: real, from: real, to: real): real
    requires to > 0.0
  {
    value * from / to
  }

  /** value of one unit in another one; None if the dimension texts differ. */
  function Convert(value: real, source: UnitSpec, target: UnitSpec): Option<real>
    requires target.quantity.factor > 0.0
  {
    if source.dimKey != target.dimKey then None
    else Some(Rescale(value, source.quantity.factor, target.quantity.factor))
  }

  ghost predicate Readable(table: Table, text: string) {
    ProperTable(table) && Spec(table, text).Some?
  }

  lemma {:induction false} ReadIsNamed(table: Table, tokens: seq<string>, op: int, acc: Quantity)
    requires ProperTable(table) && Proper(acc) && Named(acc.dims) && Read(table, tokens, op, acc).Some?
    ensures var q := Read(table, tokens, op, acc).value;
            Proper(q) && Named(q.dims)
    decreases |tokens|
  {
    if tokens != [] {
      assert tokens[0..] == tokens;
      ReadStep(table, tokens, 0, op, acc);
      if tokens[0] == "*" {
        ReadIsNamed(table, tokens[1..], 1, acc);
      } else if tokens[0] == "/" {
        ReadIsNamed(table, tokens[1..], -1, acc);
      } else {
        var spec, e := Known(table, tokens[0]).value, UnitExponent(tokens[0]) * op;
        SumNamed(acc.dims, spec.dims, e);
        MultipliedIsTimes(acc, spec, e);
        ReadIsNamed(table, tokens[1..], 1, Multiplied(acc, spec, e));
      }
    }
  }

  lemma SpecIsProper(table: Table, text: string)
    requires Readable(table, text)
    ensures var q := Spec(table, text).value.quantity;
            Proper(q) && Named(q.dims) && Spec(table, text).value.dimKey == DimKey(q.dims)
  {
    ReadIsNamed(table, UnitTokens(text), 1, ONE);
  }

  /** A conversion between two readable units is made exactly if they have the same dimensions. */
  lemma ConvertsExactly(table: Table, value: real, source: string, target: string)
    requires Readable(table, source) && Readable(table, target)
    ensures var s, t := Spec(table, source).value, Spec(table, target).value;
            t.quantity.factor > 0.0 && (Convert(value, s, t).Some? <==> s.quantity.dims == t.quantity.dims)
  {
    SpecIsProper(table, source);
    SpecIsProper(table, target);
    var s, t := Spec(table, source).value, Spec(table, target).value;
    DimKeyCanonical(s.quantity.dims, t.quantity.dims);
    if SameExponents(s.quantity.dims, t.quantity.dims) {
      SameExponentsSameMap(s.quantity.dims, t.quantity.dims);
    }
  }

  lemma FactorsCompose(value: real, a: real, b: real, c: real)
    requires a > 0.0 && b > 0.0 && c > 0.0
    ensures Rescale(Rescale(value, a, b), b, c) == Rescale(value, a, c)
    ensures Rescale(Rescale(value, a, b), b, a) == value
  {
  }

  /** A converted value is the same number of base units. */
  lemma ConvertsAmount(value: real, source: UnitSpec, target: UnitSpec)
    requires target.quantity.factor > 0.0 && Convert(value, source, target).Some?
    ensures Convert(value, source, target).value * target.quantity.factor == value * source.quantity.factor
  {
    RescalesAmount(value, source.quantity.factor, target.quantity.factor);
  }

  lemma RescalesAmount(value: real, from: real, to: real)
    requires to > 0.0
    ensures Rescale(value, from, to) * to == value * from
  {
  }

  /** Converting on is converting directly, and converting back undoes a conversion. */
  lemma ConversionsCompose(value: real, a: UnitSpec, b: UnitSpec, c: UnitSpec)
    requires a.quantity.factor > 0.0 && b.quantity.factor > 0.0 && c.quantity.factor > 0.0
    requires Convert(value, a, b).Some? && Convert(Convert(value, a, b).value, b, c).Some?
    ensures Convert(value, a, c) == Convert(Convert(value, a, b).value, b, c)
    ensures Convert(Convert(value, a, b).value, b, a) == Some(value)
    ensures Convert(value, a, b).value * b.quantity.factor == value * a.quantity.factor
  {
    hide Rescale;
    ConvertsAmount(value, a, b);
    FactorsCompose(value, a.quantity.factor, b.quantity.factor, c.quantity.factor);
  }

  // ---------- temperatures ----------

  function ToKelvin(unit: string, value: real): real {
    if unit == "c" then value + 273.15
    else if unit == "f" then (value - 32.0) * 5.0 / 9.0 + 273.15
    else if unit == "k" then value
    else if unit == "r" then value * 5.0 / 9.0
    else if unit == "re" then value * 1.25 + 273.15
    else value
  }

  function FromKelvin(unit: string, kelvin: real): Option<real> {
    if unit == "c" then Some(kelvin - 273.15)
    else if unit == "f" then Some((kelvin - 273.15) * 9.0 / 5.0 + 32.0)
    else if unit == "k" then Some(kelvin)
    else if unit == "r" then Some(kelvin * 9.0 / 5.0)
    else if unit == "re" then Some((kelvin - 273.15) * 0.8)
    else None
  }

  function ConvertTemperature(value: real, source: string, target: string): Option<real> {
    FromKelvin(target, ToKelvin(source, value))
  }

  /** Where water freezes on each scale, and where it boils. */
  function Freezing(unit: string): real {
    if unit == "f" then 32.0 else if unit == "k" then 273.15 else if unit == "r" then 491.67 else 0.0
  }

  function Boiling(unit: string): real {
    if unit == "f" then 212.0 else if unit == "k" then 373.15 else if unit == "r" then 671.67
    else if unit == "re" then 80.0 else 100.0
  }

  /** Between these two points, and beyond them, a temperature stands at the same fraction of every scale. */
  lemma TemperatureIsKept(value: real, source: string, target: string)
    requires source in {"c", "f", "k", "r", "re"} && target in {"c", "f", "k", "r", "re"}
    ensures ConvertTemperature(value, source, target).Some?
    ensures (ConvertTemperature(value, source, target).value - Freezing(target)) * (Boiling(source) - Freezing(source))
            == (value - Freezing(source)) * (Boiling(target) - Freezing(target))
  {
    KelvinIsScale(value, source);
    ScaleIsKelvin(ToKelvin(source, value), target);
  }

  lemma KelvinIsScale(value: real, unit: string)
    requires unit in {"c", "f", "k", "r", "re"}
    ensures (ToKelvin(unit, value) - 273.15) * (Boiling(unit) - Freezing(unit)) == (value - Freezing(unit)) * 100.0
  {
  }

  lemma ScaleIsKelvin(kelvin: real, unit: string)
    requires unit in {"c", "f", "k", "r", "re"}
    ensures FromKelvin(unit, kelvin).Some?
    ensures (FromKelvin(unit, kelvin).value - Freezing(unit)) * 100.0 == (kelvin - 273.15) * (Boiling(unit) - Freezing(unit))
  {
  }

  lemma KelvinAndBack(unit: string, kelvin: real)
    requires FromKelvin(unit, kelvin).Some?
    ensures ToKelvin(unit, FromKelvin(unit, kelvin).value) == kelvin
    ensures FromKelvin(unit, ToKelvin(unit, kelvin)) == Some(kelvin)
  {
  }

  lemma TemperaturesCompose(value: real, a: string, b: string, c: string)
    requires ConvertTemperature(value, a, b).Some?
    ensures ConvertTemperature(ConvertTemperature(value, a, b).value, b, c) == ConvertTemperature(value, a, c)
    ensures FromKelvin(a, value).Some? ==> ConvertTemperature(ConvertTemperature(value, a, b).value, b, a) == Some(value)
  {
  }
}
