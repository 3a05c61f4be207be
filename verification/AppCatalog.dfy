/**
 Deciding whether a scan found the same applications: each application is encoded as a length-prefixed
 signature, and two scans are compared as sorted lists of signatures.
 */
module AppCatalog {
  import opened Sorting
  import opened TextCodec

  /** score stands for the usage fields, which are not part of the catalog. */
  datatype App = App(
    name: string,
    iconSource: string,
    iconName: string,
    desktopId: string,
    desktopFile: string,
    executable: string,
    categories: seq<string>,
    score: int)

  /** The seven catalog fields. */
  function Catalog(app: App): App {
    app.(score := 0)
  }

  // ---------- categories ----------

  /** The parts between separators, empty ones dropped; head is the part being read. */
  function Split(head: string, s: string): seq<string>
    decreases |s|
  {
    if s == "" then
      if head == "" then [] else [head]
    else if s[0] == ';' then
      (if head == "" then [] else [head]) + Split("", s[1..])
    else
      Split(head + [s[0]], s[1..])
  }

  lemma {:induction false} SplitIsSeparable(head: string, s: string)
    requires ';' !in head
    ensures Separable(Split(head, s), ';')
    decreases |s|
  {
    if s != "" {
      if s[0] == ';' {
        SplitIsSeparable("", s[1..]);
      } else {
        SplitIsSeparable(head + [s[0]], s[1..]);
      }
    }
  }

  function KeepTokens(space: char -> bool, parts: seq<string>): seq<string> {
    if parts == [] then [] else
      var token := Trim(space, parts[|parts| - 1]);
      KeepTokens(space, parts[..|parts| - 1]) + if token == "" then [] else [token]
  }

  function Categories(space: char -> bool, raw: string): seq<string> {
    KeepTokens(space, Split("", Trim(space, raw)))
  }

  method ParseDesktopCategories(space: char -> bool, raw: string) returns (out: seq<string>)
    ensures out == Categories(space, raw)
  {
    var trimmed := Trim(space, raw);
    out := [];
    if trimmed == "" {
      return;
    }
    var parts := Split("", trimmed);
    for i := 0 to |parts|
      invariant out == KeepTokens(space, parts[..i])
    {
      assert parts[..i + 1][..i] == parts[..i];
      var token := Trim(space, parts[i]);
      if token != "" {
        out := out + [token];
      }
    }
    assert parts[..|parts|] == parts;
  }

  /** A token as the parser yields them: not empty, without separators, without white space around it. */
  predicate IsToken(space: char -> bool, token: string) {
    token != "" && ';' !in token && !space(token[0]) && !space(token[|token| - 1])
  }

  predicate Parsed(space: char -> bool, categories: seq<string>) {
    forall i :: 0 <= i < |categories| ==> IsToken(space, categories[i])
  }

  lemma {:induction false} KeptTokensAreParsed(space: char -> bool, parts: seq<string>)
    requires Separable(parts, ';')
    ensures Parsed(space, KeepTokens(space, parts))
  {
    hide Trim;
    if parts != [] {
      var front, last := parts[..|parts| - 1], parts[|parts| - 1];
      KeptTokensAreParsed(space, front);
      assert ';' !in last && ';' !in Trim(space, last);
    }
  }

  lemma {:induction false} SplitReadsAhead(head: string, part: string, rest: string)
    requires ';' !in part
    ensures Split(head, part + rest) == Split(head + part, rest)
    decreases |part|
  {
    if part == "" {
      assert part + rest == rest && head + part == head;
    } else {
      assert (part + rest)[1..] == part[1..] + rest;
      SplitReadsAhead(head + [part[0]], part[1..], rest);
      assert head + [part[0]] + part[1..] == head + part;
    }
  }

  lemma {:induction false} SplitUndoesJoin(parts: seq<string>)
    requires Separable(parts, ';')
    ensures Split("", Join(parts, ';')) == parts
  {
    if parts != [] {
      var first := parts[0];
      if |parts| == 1 {
        SplitReadsAhead("", first, "");
        assert first + "" == first && "" + first == first;
      } else {
        var rest := [';'] + Join(parts[1..], ';');
        SplitReadsAhead("", first, rest);
        assert Join(parts, ';') == first + rest && "" + first == first;
        assert rest[1..] == Join(parts[1..], ';');
        SplitUndoesJoin(parts[1..]);
      }
      assert parts == [first] + parts[1..];
    }
  }

  lemma {:induction false} ParsedTokensAreKept(space: char -> bool, parts: seq<string>)
    requires Parsed(space, parts)
    ensures KeepTokens(space, parts) == parts
  {
    if parts != [] {
      hide Trim;
      var front, last := parts[..|parts| - 1], parts[|parts| - 1];
      ParsedTokensAreKept(space, front);
      assert IsToken(space, last);
      TrimKeeps(space, last);
      assert parts == front + [last];
    }
  }

  lemma {:induction false} JoinEnds(parts: seq<string>)
    requires Separable(parts, ';') && parts != []
    ensures var s := Join(parts, ';'); s != "" && s[0] == parts[0][0]
    ensures var s := Join(parts, ';'); var last := parts[|parts| - 1]; s[|s| - 1] == last[|last| - 1]
  {
    if |parts| > 1 {
      var rest := parts[1..];
      JoinEnds(rest);
      assert rest[|rest| - 1] == parts[|parts| - 1];
      var s, t := Join(parts, ';'), Join(rest, ';');
      assert s == parts[0] + [';'] + t;
      hide Join;
      assert s[0] == parts[0][0] && s[|s| - 1] == t[|t| - 1];
    }
  }

  /** The lists the parser yields are exactly those that survive joining and parsing again. */
  lemma ParsedExactly(space: char -> bool, categories: seq<string>)
    ensures Parsed(space, categories) <==> Categories(space, Join(categories, ';')) == categories
  {
    var s := Join(categories, ';');
    SplitIsSeparable("", Trim(space, s));
    KeptTokensAreParsed(space, Split("", Trim(space, s)));
    if Parsed(space, categories) {
      assert Separable(categories, ';') by {
        assert forall i :: 0 <= i < |categories| ==> IsToken(space, categories[i]);
      }
      if categories != [] {
        JoinEnds(categories);
        assert IsToken(space, categories[0]) && IsToken(space, categories[|categories| - 1]);
      }
      TrimKeeps(space, s);
      SplitUndoesJoin(categories);
      ParsedTokensAreKept(space, categories);
    }
  }

  // ---------- categories of any text ----------

  /** The tokens of a text, before it is trimmed as a whole. */
  function Tokens(space: char -> bool, s: string): seq<string> {
    KeepTokens(space, Split("", s))
  }

  lemma {:induction false} KeepTokensJoined(space: char -> bool, a: seq<string>, b: seq<string>)
    ensures KeepTokens(space, a + b) == KeepTokens(space, a) + KeepTokens(space, b)
    decreases |b|
  {
    if b == [] {
      assert a + b == a && KeepTokens(space, a) + [] == KeepTokens(space, a);
    } else {
      var n := |b| - 1;
      assert (a + b)[..|a + b| - 1] == a + b[..n];
      KeepTokensJoined(space, a, b[..n]);
    }
  }

  lemma {:induction false} SplitJoined(head: string, a: string, b: string)
    requires ';' !in head
    ensures Split(head, a + ";" + b) == Split(head, a) + Split("", b)
    decreases |a|
  {
    var s := a + ";" + b;
    if a == "" {
      assert s == ";" + b && s[1..] == b;
    } else {
      assert s[1..] == a[1..] + ";" + b;
      if a[0] == ';' {
        SplitJoined("", a[1..], b);
      } else {
        SplitJoined(head + [a[0]], a[1..], b);
      }
    }
  }

  lemma TokensJoined(space: char -> bool, a: string, b: string)
    ensures Tokens(space, a + ";" + b) == Tokens(space, a) + Tokens(space, b)
  {
    SplitJoined("", a, b);
    KeepTokensJoined(space, Split("", a), Split("", b));
  }

  lemma SplitOne(s: string)
    requires ';' !in s
    ensures Split("", s) == if s == "" then [] else [s]
  {
    SplitReadsAhead("", s, "");
    assert s + "" == s && "" + s == s;
  }

  lemma KeepOne(space: char -> bool, s: string)
    ensures KeepTokens(space, [s]) == if Trim(space, s) == "" then [] else [Trim(space, s)]
  {
    hide Trim;
    assert [s][..0] == [];
    assert KeepTokens(space, []) == [];
  }

  lemma TokensOfOne(space: char -> bool, s: string)
    requires ';' !in s
    ensures Tokens(space, s) == if Trim(space, s) == "" then [] else [Trim(space, s)]
  {
    hide Trim, Split;
    SplitOne(s);
    KeepOne(space, s);
    TrimOfNothing(space);
  }

  lemma TrimOfNothing(space: char -> bool)
    ensures Trim(space, "") == ""
  {
  }

  lemma TrimFrontOnce(space: char -> bool, c: char, s: string)
    requires space(c)
    ensures Trim(space, [c] + s) == Trim(space, s)
  {
    assert ([c] + s)[1..] == s;
  }

  lemma {:induction false} TrimBackOnce(space: char -> bool, s: string, c: char)
    requires space(c)
    ensures Trim(space, s + [c]) == Trim(space, s)
    decreases |s|
  {
    if s == "" {
      assert s + [c] == [c] + "";
      TrimFrontOnce(space, c, "");
    } else if space(s[0]) {
      assert (s + [c])[1..] == s[1..] + [c];
      TrimBackOnce(space, s[1..], c);
    } else {
      assert (s + [c])[..|s|] == s;
    }
  }

  lemma FirstSemicolon(s: string) returns (a: string, b: string)
    requires ';' in s
    ensures s == a + ";" + b && ';' !in a
    decreases |s|
  {
    if s[0] == ';' {
      a, b := "", s[1..];
    } else {
      assert s == [s[0]] + s[1..];
      a, b := FirstSemicolon(s[1..]);
      a := [s[0]] + a;
    }
  }

  lemma LastSemicolon(s: string) returns (a: string, b: string)
    requires ';' in s
    ensures s == a + ";" + b && ';' !in b
    decreases |s|
  {
    var n := |s| - 1;
    if s[n] == ';' {
      a, b := s[..n], "";
    } else {
      assert s == s[..n] + [s[n]];
      a, b := LastSemicolon(s[..n]);
      b := b + [s[n]];
    }
  }

  lemma TokensWithoutFront(space: char -> bool, c: char, s: string)
    requires space(c) && !space(';')
    ensures Tokens(space, [c] + s) == Tokens(space, s)
  {
    hide Tokens, Trim;
    if ';' in s {
      var a, b := FirstSemicolon(s);
      assert [c] + s == ([c] + a) + ";" + b;
      TokensJoined(space, [c] + a, b);
      TokensJoined(space, a, b);
      TokensOfOne(space, [c] + a);
      TokensOfOne(space, a);
      TrimFrontOnce(space, c, a);
    } else {
      TokensOfOne(space, [c] + s);
      TokensOfOne(space, s);
      TrimFrontOnce(space, c, s);
    }
  }

  lemma TokensWithoutBack(space: char -> bool, s: string, c: char)
    requires space(c) && !space(';')
    ensures Tokens(space, s + [c]) == Tokens(space, s)
  {
    hide Tokens, Trim;
    if ';' in s {
      var a, b := LastSemicolon(s);
      assert s + [c] == a + ";" + (b + [c]);
      TokensJoined(space, a, b + [c]);
      TokensJoined(space, a, b);
      TokensOfOne(space, b + [c]);
      TokensOfOne(space, b);
      TrimBackOnce(space, b, c);
    } else {
      TokensOfOne(space, s + [c]);
      TokensOfOne(space, s);
      TrimBackOnce(space, s, c);
    }
  }

  lemma {:induction false} TokensOfFront(space: char -> bool, s: string)
    requires !space(';')
    ensures Tokens(space, TrimFront(space, s)) == Tokens(space, s)
  {
    hide Tokens;
    if s != "" && space(s[0]) {
      assert s == [s[0]] + s[1..];
      TokensWithoutFront(space, s[0], s[1..]);
      TokensOfFront(space, s[1..]);
    }
  }

  lemma {:induction false} TokensOfBack(space: char -> bool, s: string)
    requires !space(';')
    ensures Tokens(space, TrimBack(space, s)) == Tokens(space, s)
  {
    hide Tokens;
    if s != "" && space(s[|s| - 1]) {
      var n := |s| - 1;
      assert s == s[..n] + [s[n]];
      TokensWithoutBack(space, s[..n], s[n]);
      TokensOfBack(space, s[..n]);
    }
  }

  lemma CategoriesAreTokens(space: char -> bool, raw: string)
    requires !space(';')
    ensures Categories(space, raw) == Tokens(space, raw)
  {
    TokensOfFront(space, raw);
    TokensOfBack(space, TrimFront(space, raw));
  }

  /** Every text: what stands before and after a semicolon is parsed separately, and without one the text is a category, or
      none if it is blank. So empty parts, and semicolons at either end, leave nothing behind. */
  lemma CategoriesOfAnyText(space: char -> bool, a: string, b: string)
    requires !space(';')
    ensures Categories(space, a + ";" + b) == Categories(space, a) + Categories(space, b)
    ensures ';' !in a ==> Categories(space, a) == if Trim(space, a) == "" then [] else [Trim(space, a)]
  {
    hide Categories, Tokens, Trim;
    CategoriesAreTokens(space, a);
    CategoriesAreTokens(space, b);
    CategoriesAreTokens(space, a + ";" + b);
    TokensJoined(space, a, b);
    if ';' !in a {
      TokensOfOne(space, a);
    }
  }

  /** Trimming takes off white space only, and all of it at the ends. */
  lemma TrimTakesSpace(space: char -> bool, s: string)
    ensures exists a, b :: s == a + Trim(space, s) + b && (forall i :: 0 <= i < |a| ==> space(a[i]))
                           && forall i :: 0 <= i < |b| ==> space(b[i])
  {
    var a := FrontSpace(space, s);
    var b := BackSpace(space, TrimFront(space, s));
    assert s == a + Trim(space, s) + b;
  }

  lemma {:induction false} FrontSpace(space: char -> bool, s: string) returns (a: string)
    ensures s == a + TrimFront(space, s) && forall i :: 0 <= i < |a| ==> space(a[i])
  {
    a := "";
    if s != "" && space(s[0]) {
      a := FrontSpace(space, s[1..]);
      a := [s[0]] + a;
    }
  }

  lemma {:induction false} BackSpace(space: char -> bool, s: string) returns (b: string)
    ensures s == TrimBack(space, s) + b && forall i :: 0 <= i < |b| ==> space(b[i])
  {
    b := "";
    if s != "" && space(s[|s| - 1]) {
      b := BackSpace(space, s[..|s| - 1]);
      b := b + [s[|s| - 1]];
    }
  }

  // ---------- signatures ----------

  function Field(value: string): string {
    Decimal(|value|) + [':'] + value + ['|']
  }

  function Signature(app: App): string {
    Field(app.name) + (Field(app.iconSource) + (Field(app.iconName) + (Field(app.desktopId)
    + (Field(app.desktopFile) + (Field(app.executable) + (Field(Join(app.categories, ';')) + ""))))))
  }

  method AppendField(signature: string, value: string) returns (r: string)
    ensures r == signature + Field(value)
  {
    r := signature;
    r := r + Decimal(|value|);
    r := r + [':'];
    r := r + value;
    r := r + ['|'];
    assert r == signature + (Decimal(|value|) + [':'] + value + ['|']);
  }

  method AppCatalogSignature(app: App) returns (signature: string)
    ensures signature == Signature(app)
  {
    var values := [app.name, app.iconSource, app.iconName, app.desktopId, app.desktopFile, app.executable,
                   Join(app.categories, ';')];
    signature := JoinFields(values);
    FieldsOfSignature(app);
  }

  method JoinFields(values: seq<string>) returns (signature: string)
    ensures signature == Fields(values)
  {
    hide Field;
    signature := "";
    assert values[0..] == values && "" + Fields(values) == Fields(values);
    for i := 0 to |values|
      invariant signature + Fields(values[i..]) == Fields(values)
    {
      assert values[i..][1..] == values[i + 1..];
      assert signature + (Field(values[i]) + Fields(values[i + 1..])) == signature + Field(values[i]) + Fields(values[i + 1..]);
      signature := AppendField(signature, values[i]);
    }
    assert values[|values|..] == [];
    assert signature + "" == signature;
  }

  function Fields(values: seq<string>): string {
    if values == [] then "" else Field(values[0]) + Fields(values[1..])
  }

  lemma FieldsOfSignature(app: App)
    ensures Fields([app.name, app.iconSource, app.iconName, app.desktopId, app.desktopFile, app.executable,
                    Join(app.categories, ';')]) == Signature(app)
  {
    var v := [app.name, app.iconSource, app.iconName, app.desktopId, app.desktopFile, app.executable,
              Join(app.categories, ';')];
    assert v[1..][1..] == v[2..] && v[2..][1..] == v[3..] && v[3..][1..] == v[4..];
    assert v[4..][1..] == v[5..] && v[5..][1..] == v[6..] && v[6..][1..] == [];
    assert Fields(v[6..]) == Field(v[6]) + Fields([]);
    assert Fields(v[5..]) == Field(v[5]) + Fields(v[6..]);
    assert Fields(v[4..]) == Field(v[4]) + Fields(v[5..]);
    assert Fields(v[3..]) == Field(v[3]) + Fields(v[4..]);
    assert Fields(v[2..]) == Field(v[2]) + Fields(v[3..]);
    assert Fields(v[1..]) == Field(v[1]) + Fields(v[2..]);
  }

  /** A field says where it ends: whatever follows, the field and the rest can be told apart. */
  lemma FieldSelfDelimiting(a: string, x: string, b: string, y: string)
    requires Field(a) + x == Field(b) + y
    ensures a == b && x == y
  {
    var ra, rb := a + ['|'] + x, b + ['|'] + y;
    assert Field(a) + x == Decimal(|a|) + [':'] + ra;
    assert Field(b) + y == Decimal(|b|) + [':'] + rb;
    DecimalIsReadBack(|a|);
    DecimalIsReadBack(|b|);
    FirstSeparator(':', Decimal(|a|), ra, Decimal(|b|), rb);
    assert |a| == |b|;
    assert ra[..|a|] == a && rb[..|b|] == b;
    assert ra[|a| + 1..] == x && rb[|b| + 1..] == y;
  }

  /** What a signature keeps of an application: the text fields and the joined categories. */
  predicate SameTexts(a: App, b: App) {
    && a.name == b.name && a.iconSource == b.iconSource && a.iconName == b.iconName && a.desktopId == b.desktopId
    && a.desktopFile == b.desktopFile && a.executable == b.executable
    && Join(a.categories, ';') == Join(b.categories, ';')
  }

  /** Two signatures are equal exactly if that is. */
  lemma SignatureExactly(a: App, b: App)
    ensures Signature(a) == Signature(b) <==> SameTexts(a, b)
  {
    if Signature(a) == Signature(b) {
      var a6, b6 := Field(Join(a.categories, ';')) + "", Field(Join(b.categories, ';')) + "";
      var a5, b5 := Field(a.executable) + a6, Field(b.executable) + b6;
      var a4, b4 := Field(a.desktopFile) + a5, Field(b.desktopFile) + b5;
      var a3, b3 := Field(a.desktopId) + a4, Field(b.desktopId) + b4;
      var a2, b2 := Field(a.iconName) + a3, Field(b.iconName) + b3;
      var a1, b1 := Field(a.iconSource) + a2, Field(b.iconSource) + b2;
      hide Field;
      FieldSelfDelimiting(a.name, a1, b.name, b1);
      FieldSelfDelimiting(a.iconSource, a2, b.iconSource, b2);
      FieldSelfDelimiting(a.iconName, a3, b.iconName, b3);
      FieldSelfDelimiting(a.desktopId, a4, b.desktopId, b4);
      FieldSelfDelimiting(a.desktopFile, a5, b.desktopFile, b5);
      FieldSelfDelimiting(a.executable, a6, b.executable, b6);
      FieldSelfDelimiting(Join(a.categories, ';'), "", Join(b.categories, ';'), "");
    }
  }

  /** Equal signatures, equal catalog fields, for applications whose categories came from the parser. */
  lemma SignatureInjective(a: App, b: App)
    requires Separable(a.categories, ';') && Separable(b.categories, ';')
    ensures Signature(a) == Signature(b) <==> Catalog(a) == Catalog(b)
  {
    hide Signature, Join;
    SignatureExactly(a, b);
    if SameTexts(a, b) {
      JoinInjective(a.categories, b.categories, ';');
    }
  }

  /** Without the parser's guarantee two catalogs can share a signature. */
  lemma UnparsedCategoriesCollide(app: App)
    ensures var a, b := app.(categories := ["x;y"]), app.(categories := ["x", "y"]);
            Signature(a) == Signature(b) && Catalog(a) != Catalog(b)
  {
    var a, b := app.(categories := ["x;y"]), app.(categories := ["x", "y"]);
    assert ["x", "y"][1..] == ["y"];
    assert Join(["x", "y"], ';') == "x" + [';'] + "y" == "x;y" == Join(["x;y"], ';');
    assert a.categories[0] != b.categories[0];
    hide Signature;
    SignatureExactly(a, b);
  }

  // ---------- comparing scans ----------

  function Signatures(apps: seq<App>): seq<string> {
    seq(|apps|, i requires 0 <= i < |apps| => Signature(apps[i]))
  }

  function Catalogs(apps: seq<App>): seq<App> {
    seq(|apps|, i requires 0 <= i < |apps| => Catalog(apps[i]))
  }

  predicate AllSeparable(apps: seq<App>) {
    forall i :: 0 <= i < |apps| ==> Separable(apps[i].categories, ';')
  }

  lemma {:induction false} SameSignatures(a: seq<App>, b: seq<App>)
    requires AllSeparable(a) && AllSeparable(b)
    ensures multiset(Signatures(a)) == multiset(Signatures(b)) <==> multiset(Catalogs(a)) == multiset(Catalogs(b))
    decreases |a|
  {
    hide Signature, Catalog;
    if a == [] {
      assert |multiset(Signatures(b))| == |b| == |multiset(Catalogs(b))|;
    } else if exists j :: 0 <= j < |b| && Signature(b[j]) == Signature(a[0]) {
      var j :| 0 <= j < |b| && Signature(b[j]) == Signature(a[0]);
      SameSignatures(a[1..], b[..j] + b[j + 1..]);
      WithPartner(a, b, j);
    } else {
      WithoutPartner(a, b);
    }
  }

  lemma WithPartner(a: seq<App>, b: seq<App>, j: nat)
    requires AllSeparable(a) && AllSeparable(b) && a != [] && j < |b| && Signature(b[j]) == Signature(a[0])
    ensures var b' := b[..j] + b[j + 1..];
            && (multiset(Signatures(a)) == multiset(Signatures(b)) <==> multiset(Signatures(a[1..])) == multiset(Signatures(b')))
            && (multiset(Catalogs(a)) == multiset(Catalogs(b)) <==> multiset(Catalogs(a[1..])) == multiset(Catalogs(b')))
  {
    hide Signature, Catalog, Signatures, Catalogs;
    SignatureInjective(a[0], b[j]);
    RemoveOne(a, 0);
    RemoveOne(b, j);
    assert a[..0] + a[1..] == a[1..];
    var b' := b[..j] + b[j + 1..];
    CancelOne(multiset(Signatures(a)), multiset(Signatures(b)), multiset(Signatures(a[1..])), multiset(Signatures(b')), Signature(a[0]));
    CancelOne(multiset(Catalogs(a)), multiset(Catalogs(b)), multiset(Catalogs(a[1..])), multiset(Catalogs(b')), Catalog(a[0]));
  }

  lemma CancelOne<T>(xs: multiset<T>, ys: multiset<T>, x: multiset<T>, y: multiset<T>, e: T)
    requires xs == x + multiset{e} && ys == y + multiset{e}
    ensures xs == ys <==> x == y
  {
    assert x == xs - multiset{e};
    assert y == ys - multiset{e};
  }

  lemma WithoutPartner(a: seq<App>, b: seq<App>)
    requires AllSeparable(a) && AllSeparable(b) && a != []
    requires forall j :: 0 <= j < |b| ==> Signature(b[j]) != Signature(a[0])
    ensures multiset(Signatures(a)) != multiset(Signatures(b)) && multiset(Catalogs(a)) != multiset(Catalogs(b))
  {
    hide Signature, Catalog;
    forall j | 0 <= j < |b|
      ensures Catalogs(b)[j] != Catalogs(a)[0]
    {
      SignatureInjective(a[0], b[j]);
    }
    assert Signatures(a)[0] in multiset(Signatures(a)) && Catalogs(a)[0] in multiset(Catalogs(a));
    assert Signatures(a)[0] !in Signatures(b) && Catalogs(a)[0] !in Catalogs(b);
  }

  lemma RemoveOne(a: seq<App>, j: nat)
    requires j < |a|
    ensures var a' := a[..j] + a[j + 1..];
            && multiset(Signatures(a)) == multiset(Signatures(a')) + multiset{Signature(a[j])}
            && multiset(Catalogs(a)) == multiset(Catalogs(a')) + multiset{Catalog(a[j])}
  {
    hide Signature, Catalog;
    var a' := a[..j] + a[j + 1..];
    assert Signatures(a) == Signatures(a)[..j] + [Signature(a[j])] + Signatures(a)[j + 1..];
    assert Signatures(a') == Signatures(a)[..j] + Signatures(a)[j + 1..];
    assert Catalogs(a) == Catalogs(a)[..j] + [Catalog(a[j])] + Catalogs(a)[j + 1..];
    assert Catalogs(a') == Catalogs(a)[..j] + Catalogs(a)[j + 1..];
  }

  /** True exactly when the two scans have the same catalog entries, counted with multiplicity and in any order. */
  method SameAppCatalog(a: seq<App>, b: seq<App>) returns (same: bool)
    requires AllSeparable(a) && AllSeparable(b)
    ensures same <==> multiset(Catalogs(a)) == multiset(Catalogs(b))
  {
    if |a| != |b| {
      assert |multiset(Catalogs(a))| == |a| && |multiset(Catalogs(b))| == |b|;
      return false;
    }
    var left := AllSignatures(a);
    var right := AllSignatures(b);
    LexIsTotalOrder();
    SortBySorts(LexLe, left);
    SortBySorts(LexLe, right);
    SameSignatures(a, b);
    var sortedLeft, sortedRight := SortBy(LexLe, left), SortBy(LexLe, right);
    same := sortedLeft == sortedRight;
    if multiset(left) == multiset(right) {
      SortedIsUnique(LexLe, sortedLeft, sortedRight);
    }
  }

  method AllSignatures(apps: seq<App>) returns (signatures: seq<string>)
    ensures signatures == Signatures(apps)
  {
    signatures := [];
    for i := 0 to |apps|
      invariant signatures == Signatures(apps[..i])
    {
      assert Signatures(apps[..i + 1]) == Signatures(apps[..i]) + [Signature(apps[i])];
      var signature := AppCatalogSignature(apps[i]);
      signatures := signatures + [signature];
    }
    assert apps[..|apps|] == apps;
  }
}
