/**
 The Pulse result pipeline: candidate rows are deduplicated by key, laid out in sections by rank, capped per
 provider and, if too few are left, backfilled with what the cap dropped.
 */
module PulseResults {
  import opened Prelude
  import opened Sorting
  import TextCodec

  datatype Row = Row(
    isApp: bool,
    isAction: bool,
    name: string,
    path: string,
    absolutePath: string,
    intent: string,
    actionId: string,
    desktopId: string,
    desktopFile: string,
    executable: string,
    provider: string,
    sectionTitle: string,
    rank: real,
    priority: int)

  /** The string operations of the host language, left abstract. */
  datatype Text = Text(lower: string -> string, trim: string -> string)

  // ---------- the dedupe key ----------

  function AppEntryKey(t: Text, row: Row): string {
    if t.lower(row.desktopId) != "" then "id:" + t.lower(row.desktopId)
    else if t.lower(row.desktopFile) != "" then "desktop:" + t.lower(row.desktopFile)
    else if t.lower(row.executable) != "" then "exe:" + t.lower(row.executable)
    else "name:" + t.lower(row.name)
  }

  function Or(a: string, b: string): string {
    if a == "" then b else a
  }

  function DedupeKey(t: Text, row: Row): string {
    var key :=
      if row.isApp then
        "app:" + AppEntryKey(t, row)
      else if row.isAction || row.sectionTitle == "Actions" then
        "action:" + t.lower(t.trim(row.name)) + "|"
        + Or(t.lower(t.trim(Or(row.intent, row.path))), t.lower(t.trim(row.actionId)))
      else
        "path:" + t.lower(Or(row.absolutePath, row.path));
    if |key| <= 5 then "raw:" + row.name + "|" + row.path else key
  }

  // ---------- which rows are duplicates ----------

  predicate IsActionRow(row: Row) {
    !row.isApp && (row.isAction || row.sectionTitle == "Actions")
  }

  predicate IsFileRow(row: Row) {
    !row.isApp && !IsActionRow(row)
  }

  /** The same application: the first of id, desktop file, executable and name that either has is one that both have, and
      it agrees. */
  predicate SameApp(t: Text, a: Row, b: Row) {
    if t.lower(a.desktopId) != "" || t.lower(b.desktopId) != "" then t.lower(a.desktopId) == t.lower(b.desktopId)
    else if t.lower(a.desktopFile) != "" || t.lower(b.desktopFile) != "" then t.lower(a.desktopFile) == t.lower(b.desktopFile)
    else if t.lower(a.executable) != "" || t.lower(b.executable) != "" then t.lower(a.executable) == t.lower(b.executable)
    else t.lower(a.name) == t.lower(b.name)
  }

  function PathOf(t: Text, row: Row): string {
    t.lower(if row.absolutePath != "" then row.absolutePath else row.path)
  }

  /** The same file: the path agrees, or, where there is none, the name. */
  predicate SameFile(t: Text, a: Row, b: Row) {
    if PathOf(t, a) == "" && PathOf(t, b) == "" then a.name + "|" + a.path == b.name + "|" + b.path
    else PathOf(t, a) == PathOf(t, b)
  }

  function ActionName(t: Text, row: Row): string {
    t.lower(t.trim(row.name))
  }

  function ActionTarget(t: Text, row: Row): string {
    var intent := t.lower(t.trim(if row.intent != "" then row.intent else row.path));
    if intent != "" then intent else t.lower(t.trim(row.actionId))
  }

  /** The same action: name and target agree, once joined by a bar. */
  predicate SameAction(t: Text, a: Row, b: Row) {
    ActionName(t, a) + "|" + ActionTarget(t, a) == ActionName(t, b) + "|" + ActionTarget(t, b)
  }

  predicate SameThing(t: Text, a: Row, b: Row) {
    || (a.isApp && b.isApp && SameApp(t, a, b))
    || (IsActionRow(a) && IsActionRow(b) && SameAction(t, a, b))
    || (IsFileRow(a) && IsFileRow(b) && SameFile(t, a, b))
  }

  lemma PrefixCancels(p: string, a: string, b: string)
    ensures p + a == p + b <==> a == b
  {
    assert (p + a)[|p|..] == a && (p + b)[|p|..] == b;
  }

  /** How the key of a row of each kind starts, and how it goes on. */
  lemma KeyStarts(t: Text, row: Row)
    ensures row.isApp ==> DedupeKey(t, row) == "app:" + AppEntryKey(t, row)
    ensures IsActionRow(row) ==> DedupeKey(t, row) == "action:" + (ActionName(t, row) + "|" + ActionTarget(t, row))
    ensures IsFileRow(row) ==> DedupeKey(t, row) == if PathOf(t, row) == "" then "raw:" + (row.name + "|" + row.path)
                                                    else "path:" + PathOf(t, row)
  {
    var name, target := ActionName(t, row), ActionTarget(t, row);
    assert "action:" + name + "|" + target == "action:" + (name + "|" + target);
    assert "raw:" + row.name + "|" + row.path == "raw:" + (row.name + "|" + row.path);
  }

  lemma SameAppExactly(t: Text, a: Row, b: Row)
    ensures AppEntryKey(t, a) == AppEntryKey(t, b) <==> SameApp(t, a, b)
  {
    EntryKeyIs(t, a);
    EntryKeyIs(t, b);
    PrefixCancels("id:", t.lower(a.desktopId), t.lower(b.desktopId));
    PrefixCancels("desktop:", t.lower(a.desktopFile), t.lower(b.desktopFile));
    PrefixCancels("exe:", t.lower(a.executable), t.lower(b.executable));
    PrefixCancels("name:", t.lower(a.name), t.lower(b.name));
  }

  lemma EntryKeyIs(t: Text, row: Row)
    ensures AppEntryKey(t, row)[0] ==
            if t.lower(row.desktopId) != "" then 'i' else if t.lower(row.desktopFile) != "" then 'd'
            else if t.lower(row.executable) != "" then 'e' else 'n'
  {
  }

  /** Two rows have the same key exactly if they are the same application, the same action or the same file; rows of
      different kinds never do. */
  lemma SameKeyExactly(t: Text, a: Row, b: Row)
    ensures DedupeKey(t, a) == DedupeKey(t, b) <==> SameThing(t, a, b)
  {
    hide DedupeKey, AppEntryKey, SameApp, ActionName, ActionTarget, PathOf;
    KeyStarts(t, a);
    KeyStarts(t, b);
    SameAppExactly(t, a, b);
    PrefixCancels("app:", AppEntryKey(t, a), AppEntryKey(t, b));
    PrefixCancels("action:", ActionName(t, a) + "|" + ActionTarget(t, a), ActionName(t, b) + "|" + ActionTarget(t, b));
    PrefixCancels("path:", PathOf(t, a), PathOf(t, b));
    PrefixCancels("raw:", a.name + "|" + a.path, b.name + "|" + b.path);
    KeysDiffer(t, a);
    KeysDiffer(t, b);
  }

  lemma KeysDiffer(t: Text, row: Row)
    ensures |DedupeKey(t, row)| > 1
    ensures row.isApp ==> DedupeKey(t, row)[0] == 'a' && DedupeKey(t, row)[1] == 'p'
    ensures IsActionRow(row) ==> DedupeKey(t, row)[0] == 'a' && DedupeKey(t, row)[1] == 'c'
    ensures IsFileRow(row) ==> DedupeKey(t, row)[0] == if PathOf(t, row) == "" then 'r' else 'p'
  {
    hide DedupeKey, AppEntryKey, ActionName, ActionTarget, PathOf;
    KeyStarts(t, row);
  }

  /** As long as names have no bar, the same action is the same name and the same target. */
  lemma SameActionExactly(t: Text, a: Row, b: Row)
    requires '|' !in ActionName(t, a) && '|' !in ActionName(t, b)
    ensures SameAction(t, a, b) <==> ActionName(t, a) == ActionName(t, b) && ActionTarget(t, a) == ActionTarget(t, b)
  {
    hide ActionName, ActionTarget;
    if SameAction(t, a, b) {
      TextCodec.FirstSeparator('|', ActionName(t, a), ActionTarget(t, a), ActionName(t, b), ActionTarget(t, b));
    }
  }

  /** With a bar in a name two different actions can have one key. */
  lemma BarsCollide(t: Text, row: Row)
    requires IsActionRow(row) && forall s :: t.lower(s) == s && t.trim(s) == s
    ensures var a, b := row.(name := "go|to", intent := "x"), row.(name := "go", intent := "to|x");
            DedupeKey(t, a) == DedupeKey(t, b) && ActionName(t, a) != ActionName(t, b)
  {
    var a, b := row.(name := "go|to", intent := "x"), row.(name := "go", intent := "to|x");
    SameKeyExactly(t, a, b);
    assert ActionName(t, a) == "go|to" && ActionName(t, b) == "go";
    assert ActionTarget(t, a) == "x" && ActionTarget(t, b) == "to|x";
    assert "go|to" + "|" + "x" == "go" + "|" + "to|x";
    assert |"go|to"| != |"go"|;
  }

  // ---------- deduplication ----------

  predicate Beats(a: Row, b: Row) {
    a.rank > b.rank || (a.rank == b.rank && a.priority > b.priority)
  }

  /** Row i is the first of the highest-ranked rows with its key. */
  predicate IsWinner(t: Text, rows: seq<Row>, i: nat)
    requires i < |rows|
  {
    forall j :: 0 <= j < |rows| && DedupeKey(t, rows[j]) == DedupeKey(t, rows[i]) ==>
      !Beats(rows[j], rows[i]) && (j < i ==> Beats(rows[i], rows[j]))
  }

  predicate Distinct(keys: seq<string>) {
    forall i, j :: 0 <= i < j < |keys| ==> keys[i] != keys[j]
  }

  /** chosen has exactly the keys of the rows, each with the row that wins it. */
  ghost predicate IsDeduped(t: Text, rows: seq<Row>, keys: seq<string>, chosen: map<string, Row>) {
    && Distinct(keys)
    && (forall k :: k in keys <==> k in chosen)
    && (forall j :: 0 <= j < |rows| ==> DedupeKey(t, rows[j]) in chosen)
    && (forall k :: k in chosen ==> Wins(t, rows, k, chosen[k]))
  }

  ghost predicate Wins(t: Text, rows: seq<Row>, k: string, row: Row) {
    exists i :: 0 <= i < |rows| && rows[i] == row && DedupeKey(t, row) == k && IsWinner(t, rows, i)
  }

  ghost predicate HasThing(t: Text, chosen: map<string, Row>, row: Row) {
    exists k :: k in chosen && SameThing(t, chosen[k], row)
  }

  method Deduplicate(t: Text, rows: seq<Row>) returns (keys: seq<string>, chosen: map<string, Row>)
    ensures IsDeduped(t, rows, keys, chosen)
    ensures forall k, k' :: k in chosen && k' in chosen && k != k' ==> !SameThing(t, chosen[k], chosen[k'])
    ensures forall j :: 0 <= j < |rows| ==> HasThing(t, chosen, rows[j])
  {
    hide DedupeKey, Beats, Wins, SameThing;
    keys, chosen := [], map[];
    for i := 0 to |rows|
      invariant IsDeduped(t, rows[..i], keys, chosen)
    {
      var row := rows[i];
      var key := DedupeKey(t, row);
      ghost var before := chosen;
      assert rows[..i + 1] == rows[..i] + [row];
      if key !in chosen {
        keys, chosen := keys + [key], chosen[key := row];
        NewKeyWins(t, rows[..i], row, before);
      } else {
        if Beats(row, chosen[key]) {
          chosen := chosen[key := row];
        }
        OldKeyWins(t, rows[..i], row, before);
      }
    }
    assert rows[..|rows|] == rows;
    ChosenAreThings(t, rows, keys, chosen);
  }

  lemma ChosenAreThings(t: Text, rows: seq<Row>, keys: seq<string>, chosen: map<string, Row>)
    requires IsDeduped(t, rows, keys, chosen)
    ensures forall k, k' :: k in chosen && k' in chosen && k != k' ==> !SameThing(t, chosen[k], chosen[k'])
    ensures forall j :: 0 <= j < |rows| ==> HasThing(t, chosen, rows[j])
  {
    hide DedupeKey, SameThing, Beats;
    forall k | k in chosen ensures DedupeKey(t, chosen[k]) == k {
      assert Wins(t, rows, k, chosen[k]);
    }
    hide IsWinner;
    forall k, k' | k in chosen && k' in chosen && k != k' ensures !SameThing(t, chosen[k], chosen[k']) {
      SameKeyExactly(t, chosen[k], chosen[k']);
    }
    forall j | 0 <= j < |rows| ensures HasThing(t, chosen, rows[j]) {
      var k := DedupeKey(t, rows[j]);
      assert k in chosen;
      SameKeyExactly(t, chosen[k], rows[j]);
    }
  }

  lemma OthersKeepWinning(t: Text, rows: seq<Row>, row: Row, k: string, winner: Row)
    requires Wins(t, rows, k, winner) && (DedupeKey(t, row) == k ==> !Beats(row, winner))
    ensures Wins(t, rows + [row], k, winner)
  {
    var i :| 0 <= i < |rows| && rows[i] == winner && DedupeKey(t, winner) == k && IsWinner(t, rows, i);
    assert (rows + [row])[i] == winner;
    assert IsWinner(t, rows + [row], i);
  }

  lemma NewcomerWins(t: Text, rows: seq<Row>, row: Row)
    requires forall j :: 0 <= j < |rows| && DedupeKey(t, rows[j]) == DedupeKey(t, row) ==> Beats(row, rows[j])
    ensures Wins(t, rows + [row], DedupeKey(t, row), row)
  {
    assert (rows + [row])[|rows|] == row;
    assert IsWinner(t, rows + [row], |rows|);
  }

  lemma NewKeyWins(t: Text, rows: seq<Row>, row: Row, chosen: map<string, Row>)
    requires DedupeKey(t, row) !in chosen
    requires forall j :: 0 <= j < |rows| ==> DedupeKey(t, rows[j]) in chosen
    requires forall k :: k in chosen ==> Wins(t, rows, k, chosen[k])
    ensures forall k :: k in chosen ==> Wins(t, rows + [row], k, chosen[k])
    ensures Wins(t, rows + [row], DedupeKey(t, row), row)
  {
    forall k | k in chosen
      ensures Wins(t, rows + [row], k, chosen[k])
    {
      OthersKeepWinning(t, rows, row, k, chosen[k]);
    }
    NewcomerWins(t, rows, row);
  }

  lemma OldKeyWins(t: Text, rows: seq<Row>, row: Row, chosen: map<string, Row>)
    requires DedupeKey(t, row) in chosen
    requires forall k :: k in chosen ==> Wins(t, rows, k, chosen[k])
    ensures forall k :: k in chosen && k != DedupeKey(t, row) ==> Wins(t, rows + [row], k, chosen[k])
    ensures var key := DedupeKey(t, row);
            Wins(t, rows + [row], key, if Beats(row, chosen[key]) then row else chosen[key])
  {
    var key := DedupeKey(t, row);
    forall k | k in chosen && k != key
      ensures Wins(t, rows + [row], k, chosen[k])
    {
      OthersKeepWinning(t, rows, row, k, chosen[k]);
    }
    if Beats(row, chosen[key]) {
      assert Wins(t, rows, key, chosen[key]);
      NewcomerWins(t, rows, row);
    } else {
      OthersKeepWinning(t, rows, row, key, chosen[key]);
    }
  }

  // ---------- sections ----------

  function Section(row: Row): (i: nat)
    ensures i < 6
  {
    if row.sectionTitle == "Top Apps" then 0
    else if row.sectionTitle == "Actions" then 1
    else if row.sectionTitle == "Settings" then 2
    else if row.sectionTitle == "Recent Files" then 3
    else if row.sectionTitle == "Folders" then 4
    else 5
  }

  /** Sections in order, and ranks not increasing inside a section. */
  predicate LaidOut(rows: seq<Row>) {
    forall i, j :: 0 <= i < j < |rows| ==>
      Section(rows[i]) < Section(rows[j]) || (Section(rows[i]) == Section(rows[j]) && rows[i].rank >= rows[j].rank)
  }

  const TITLES: seq<string> := ["Top Apps", "Actions", "Settings", "Recent Files", "Folders"]

  /** In rows laid out, a row with the k-th title comes after rows with the titles up to it only; other titles come last. */
  lemma TitlesInOrder(rows: seq<Row>, i: nat, j: nat, k: nat)
    requires LaidOut(rows) && i < j < |rows| && k < |TITLES| && rows[j].sectionTitle == TITLES[k]
    ensures rows[i].sectionTitle in TITLES[..k + 1]
    ensures rows[i].sectionTitle == TITLES[k] ==> rows[i].rank >= rows[j].rank
  {
    var s := Section(rows[i]);
    SectionIsPlace(rows[j], k);
    if s < 5 {
      PlaceOfSection(rows[i]);
      assert TITLES[..k + 1][s] == TITLES[s];
    }
    if rows[i].sectionTitle == TITLES[k] {
      SectionIsPlace(rows[i], k);
    }
  }

  lemma SectionIsPlace(row: Row, k: nat)
    requires k < |TITLES| && row.sectionTitle == TITLES[k]
    ensures Section(row) == k
  {
    assert "Top Apps"[0] == 'T' && "Actions"[0] == 'A' && "Settings"[0] == 'S' && "Recent Files"[0] == 'R' && "Folders"[0] == 'F';
  }

  lemma PlaceOfSection(row: Row)
    requires Section(row) < 5
    ensures row.sectionTitle == TITLES[Section(row)]
  {
  }

  function ByRank(): (Row, Row) -> bool {
    (a: Row, b: Row) => a.rank >= b.rank
  }

  function OfSection(rows: seq<Row>, s: nat): seq<Row> {
    if rows == [] then []
    else if Section(rows[0]) == s then [rows[0]] + OfSection(rows[1..], s)
    else OfSection(rows[1..], s)
  }

  function Concat(groups: seq<seq<Row>>): seq<Row> {
    if groups == [] then [] else groups[0] + Concat(groups[1..])
  }

  predicate Holds(group: seq<Row>, s: nat) {
    forall r :: r in group ==> Section(r) == s
  }

  lemma {:induction false} ConcatIsLaidOut(groups: seq<seq<Row>>, first: nat)
    requires forall s :: 0 <= s < |groups| ==> SortedBy(ByRank(), groups[s]) && Holds(groups[s], first + s)
    ensures LaidOut(Concat(groups))
    ensures forall r :: r in Concat(groups) ==> Section(r) >= first
  {
    if groups != [] {
      assert forall s :: 0 <= s < |groups[1..]| ==> groups[1..][s] == groups[s + 1];
      ConcatIsLaidOut(groups[1..], first + 1);
      var all := Concat(groups);
      var head, rest := groups[0], Concat(groups[1..]);
      forall i, j | 0 <= i < j < |all|
        ensures Section(all[i]) < Section(all[j]) || (Section(all[i]) == Section(all[j]) && all[i].rank >= all[j].rank)
      {
        if j < |head| {
          assert head[i] in head && head[j] in head;
          assert ByRank()(head[i], head[j]);
        } else {
          assert rest[j - |head|] in rest;
          if i < |head| {
            assert head[i] in head;
          }
        }
      }
    }
  }

  /** Distributes the chosen rows over the six sections. */
  method Distribute(keys: seq<string>, chosen: map<string, Row>) returns (groups: seq<seq<Row>>)
    requires forall k :: k in keys ==> k in chosen
    ensures |groups| == 6 && forall s :: 0 <= s < 6 ==> Holds(groups[s], s)
    ensures multiset(Concat(groups)) == multiset(Selected(keys, chosen))
  {
    hide Section, Selected;
    groups := [[], [], [], [], [], []];
    NothingSelected(keys, chosen);
    for i := 0 to |keys|
      invariant |groups| == 6
      invariant forall s :: 0 <= s < 6 ==> Holds(groups[s], s)
      invariant multiset(Concat(groups)) == multiset(Selected(keys[..i], chosen))
    {
      var row := chosen[keys[i]];
      SelectedOneMore(keys, chosen, i);
      AppendedToGroup(groups, Section(row), row);
      groups := groups[Section(row) := groups[Section(row)] + [row]];
    }
    assert keys[..|keys|] == keys;
  }

  method SortGroups(unsorted: seq<seq<Row>>) returns (groups: seq<seq<Row>>)
    requires |unsorted| == 6 && forall s :: 0 <= s < 6 ==> Holds(unsorted[s], s)
    ensures |groups| == 6 && forall s :: 0 <= s < 6 ==> SortedBy(ByRank(), groups[s]) && Holds(groups[s], s)
    ensures multiset(Concat(groups)) == multiset(Concat(unsorted))
  {
    groups := unsorted;
    for s := 0 to 6
      invariant |groups| == 6
      invariant forall u :: 0 <= u < 6 ==> Holds(groups[u], u)
      invariant forall u :: 0 <= u < s ==> SortedBy(ByRank(), groups[u])
      invariant multiset(Concat(groups)) == multiset(Concat(unsorted))
    {
      var sorted := SortBy(ByRank(), groups[s]);
      SortBySorts(ByRank(), groups[s]);
      GroupReplaced(groups, s, sorted);
      SameElements(groups[s], sorted, s);
      groups := groups[s := sorted];
    }
  }

  method Join(groups: seq<seq<Row>>) returns (rows: seq<Row>)
    ensures rows == Concat(groups)
  {
    rows := [];
    assert groups[0..] == groups;
    assert [] + Concat(groups) == Concat(groups);
    for s := 0 to |groups|
      invariant rows + Concat(groups[s..]) == Concat(groups)
    {
      assert groups[s..][1..] == groups[s + 1..];
      assert rows + (groups[s] + Concat(groups[s + 1..])) == rows + groups[s] + Concat(groups[s + 1..]);
      rows := rows + groups[s];
    }
    assert groups[|groups|..] == [];
    assert rows + [] == rows;
  }

  /** Sections in order, each sorted by rank. */
  method Arrange(keys: seq<string>, chosen: map<string, Row>) returns (ordered: seq<Row>)
    requires forall k :: k in keys ==> k in chosen
    ensures multiset(ordered) == multiset(Selected(keys, chosen))
    ensures LaidOut(ordered)
  {
    var groups := Distribute(keys, chosen);
    groups := SortGroups(groups);
    ConcatIsLaidOut(groups, 0);
    ordered := Join(groups);
  }

  function Selected(keys: seq<string>, chosen: map<string, Row>): seq<Row>
    requires forall k :: k in keys ==> k in chosen
  {
    seq(|keys|, i requires 0 <= i < |keys| => chosen[keys[i]])
  }

  lemma NothingSelected(keys: seq<string>, chosen: map<string, Row>)
    ensures Selected(keys[..0], chosen) == []
  {
  }

  lemma SelectedOneMore(keys: seq<string>, chosen: map<string, Row>, i: nat)
    requires i < |keys| && forall k :: k in keys ==> k in chosen
    ensures Selected(keys[..i + 1], chosen) == Selected(keys[..i], chosen) + [chosen[keys[i]]]
  {
  }

  lemma SameElements(a: seq<Row>, b: seq<Row>, s: nat)
    requires multiset(a) == multiset(b) && Holds(a, s)
    ensures Holds(b, s)
  {
    forall r | r in b
      ensures Section(r) == s
    {
      assert r in multiset(b);
    }
  }

  lemma {:induction false} GroupReplaced(groups: seq<seq<Row>>, s: nat, group: seq<Row>)
    requires s < |groups| && multiset(group) == multiset(groups[s])
    ensures multiset(Concat(groups[s := group])) == multiset(Concat(groups))
  {
    if s == 0 {
      assert groups[s := group][1..] == groups[1..];
    } else {
      assert groups[s := group][1..] == groups[1..][s - 1 := group];
      GroupReplaced(groups[1..], s - 1, group);
    }
  }

  lemma {:induction false} AppendedToGroup(groups: seq<seq<Row>>, s: nat, row: Row)
    requires s < |groups|
    ensures multiset(Concat(groups[s := groups[s] + [row]])) == multiset(Concat(groups)) + multiset{row}
  {
    var changed := groups[s := groups[s] + [row]];
    if s == 0 {
      assert changed[1..] == groups[1..];
    } else {
      assert changed[1..] == groups[1..][s - 1 := groups[1..][s - 1] + [row]];
      AppendedToGroup(groups[1..], s - 1, row);
    }
  }

  // ---------- the provider cap ----------

  /** 60 percent of the candidates, but at least one. */
  function Cap(n: nat): (cap: nat) {
    if 3 * n / 5 < 1 then 1 else 3 * n / 5
  }

  /** It is the whole part of three fifths, or one. */
  lemma CapIsShare(n: nat)
    ensures Cap(n) >= 1 && (n >= 2 ==> 5 * Cap(n) <= 3 * n < 5 * (Cap(n) + 1)) && (n >= 1 ==> Cap(n) <= n)
  {
  }

  function Provider(row: Row): string {
    if row.sectionTitle == "Actions" then "slm_actions" else if row.provider == "" then "unknown" else row.provider
  }

  /** Action rows are presented as rows of the action provider. */
  function Presented(row: Row): Row {
    if row.sectionTitle == "Actions" then row.(isAction := true, isApp := false, provider := "slm_actions") else row
  }

  function Count(rows: seq<Row>, p: string): (k: nat)
    ensures k <= |rows|
  {
    if rows == [] then 0
    else Count(rows[..|rows| - 1], p) + if Provider(rows[|rows| - 1]) == p then 1 else 0
  }

  /** The rows the cap lets through: of each provider the first cap rows. */
  function Kept(rows: seq<Row>, cap: nat): seq<Row> {
    if rows == [] then [] else
      var front, last := rows[..|rows| - 1], rows[|rows| - 1];
      Kept(front, cap) + if Count(front, Provider(last)) < cap then [Presented(last)] else []
  }

  function Skipped(rows: seq<Row>, cap: nat): seq<Row> {
    if rows == [] then [] else
      var front, last := rows[..|rows| - 1], rows[|rows| - 1];
      Skipped(front, cap) + if Count(front, Provider(last)) < cap then [] else [last]
  }

  function PresentedAll(rows: seq<Row>): seq<Row> {
    seq(|rows|, i requires 0 <= i < |rows| => Presented(rows[i]))
  }

  function CountOf(counts: map<string, nat>, p: string): nat {
    if p in counts then counts[p] else 0
  }

  lemma CapStep(rows: seq<Row>, i: nat, cap: nat)
    requires i < |rows|
    ensures var p := Provider(rows[i]);
            var through := Count(rows[..i], p) < cap;
            && Kept(rows[..i + 1], cap) == Kept(rows[..i], cap) + (if through then [Presented(rows[i])] else [])
            && Skipped(rows[..i + 1], cap) == Skipped(rows[..i], cap) + (if through then [] else [rows[i]])
            && forall q :: Count(rows[..i + 1], q) == Count(rows[..i], q) + if q == p then 1 else 0
  {
    assert rows[..i + 1][..i] == rows[..i];
  }

  /** The rows shown, and how many of each provider got through the cap. */
  method CapProviders(rows: seq<Row>) returns (shown: seq<Row>, counts: map<string, nat>)
    ensures shown == Shown(rows)
    ensures forall p :: CountOf(counts, p) == Min(Cap(|rows|), Count(rows, p))
  {
    var skipped;
    shown, skipped, counts := ApplyCap(rows, Cap(|rows|));
    if |shown| < Min(10, |rows|) {
      shown := Backfill(shown, skipped);
    }
  }

  method ApplyCap(rows: seq<Row>, cap: nat) returns (kept: seq<Row>, skipped: seq<Row>, counts: map<string, nat>)
    ensures kept == Kept(rows, cap) && skipped == Skipped(rows, cap)
    ensures forall p :: CountOf(counts, p) == Min(cap, Count(rows, p))
  {
    kept, skipped, counts := [], [], map[];
    for i := 0 to |rows|
      invariant kept == Kept(rows[..i], cap) && skipped == Skipped(rows[..i], cap)
      invariant forall p :: CountOf(counts, p) == Min(cap, Count(rows[..i], p))
    {
      var p := Provider(rows[i]);
      var c := CountOf(counts, p);
      CapStep(rows, i, cap);
      hide Kept, Skipped, Count;
      assert kept + [] == kept && skipped + [] == skipped;
      ghost var before := counts;
      if c >= cap {
        skipped := skipped + [rows[i]];
      } else {
        counts := counts[p := c + 1];
        kept := kept + [Presented(rows[i])];
      }
      forall q
        ensures CountOf(counts, q) == Min(cap, Count(rows[..i + 1], q))
      {
        assert CountOf(before, q) == Min(cap, Count(rows[..i], q));
      }
    }
    assert rows[..|rows|] == rows;
  }

  method Backfill(kept: seq<Row>, skipped: seq<Row>) returns (shown: seq<Row>)
    ensures shown == kept + PresentedAll(skipped)
  {
    shown := kept;
    for j := 0 to |skipped|
      invariant shown == kept + PresentedAll(skipped[..j])
    {
      assert PresentedAll(skipped[..j + 1]) == PresentedAll(skipped[..j]) + [Presented(skipped[j])];
      shown := shown + [Presented(skipped[j])];
    }
    assert skipped[..|skipped|] == skipped;
  }

  /** The capped list, or everything, kept rows first, if the cap leaves fewer than ten (or than there are). */
  function Shown(rows: seq<Row>): seq<Row> {
    var kept := Kept(rows, Cap(|rows|));
    if |kept| < Min(10, |rows|) then kept + PresentedAll(Skipped(rows, Cap(|rows|))) else kept
  }

  // ---------- what the cap guarantees ----------

  /** A shown row is its candidate, except that a row in the section of actions is marked as one. */
  lemma ShownAsCandidate(row: Row)
    ensures var shown := Presented(row);
            && shown.(isAction := row.isAction, isApp := row.isApp, provider := row.provider) == row
            && if row.sectionTitle == "Actions" then IsActionRow(shown) && shown.provider == "slm_actions" else shown == row
  {
  }

  /** Action rows count for one provider, rows without a provider for another, the others for the one they name. */
  lemma SameProviderExactly(a: Row, b: Row)
    ensures Provider(a) == Provider(b) <==>
            if a.sectionTitle == "Actions" || b.sectionTitle == "Actions" then
              (a.sectionTitle == "Actions" || a.provider == "slm_actions") && (b.sectionTitle == "Actions" || b.provider == "slm_actions")
            else
              a.provider == b.provider || (a.provider in {"", "unknown"} && b.provider in {"", "unknown"})
  {
    assert "slm_actions"[0] == 's' && "unknown"[0] == 'u';
  }

  lemma PresentationKeepsProvider(row: Row)
    ensures Provider(Presented(row)) == Provider(row)
  {
  }

  lemma {:induction false} CountOneMore(rows: seq<Row>, row: Row, p: string)
    ensures Count(rows + [row], p) == Count(rows, p) + if Provider(row) == p then 1 else 0
  {
  }

  lemma NothingToKeep(cap: nat, p: string)
    ensures Kept([], cap) == [] && Skipped([], cap) == [] && PresentedAll([]) == [] && Count([], p) == 0
  {
  }

  lemma LastRow(rows: seq<Row>, cap: nat)
    requires rows != []
    ensures var front, last := rows[..|rows| - 1], rows[|rows| - 1];
            && rows == front + [last]
            && if Count(front, Provider(last)) < cap
               then Kept(rows, cap) == Kept(front, cap) + [Presented(last)] && Skipped(rows, cap) == Skipped(front, cap)
               else Kept(rows, cap) == Kept(front, cap) && Skipped(rows, cap) == Skipped(front, cap) + [last]
  {
  }

  /** No provider gets more than cap rows through, and none that has fewer loses any. */
  lemma {:induction false} KeptPerProvider(rows: seq<Row>, cap: nat, p: string)
    ensures Count(Kept(rows, cap), p) == Min(cap, Count(rows, p))
    ensures Count(Skipped(rows, cap), p) == Count(rows, p) - Min(cap, Count(rows, p))
  {
    hide Kept, Skipped, Count, Presented, Provider;
    if rows != [] {
      var front, last := rows[..|rows| - 1], rows[|rows| - 1];
      KeptPerProvider(front, cap, p);
      LastRow(rows, cap);
      PresentationKeepsProvider(last);
      CountOneMore(front, last, p);
      CountOneMore(Kept(front, cap), Presented(last), p);
      CountOneMore(Skipped(front, cap), last, p);
    } else {
      NothingToKeep(cap, p);
    }
  }

  lemma PresentedOneMore(rows: seq<Row>, row: Row)
    ensures PresentedAll(rows + [row]) == PresentedAll(rows) + [Presented(row)]
  {
  }

  /** Every candidate is either kept or skipped. */
  lemma {:induction false} KeptAndSkipped(rows: seq<Row>, cap: nat)
    ensures multiset(Kept(rows, cap)) + multiset(PresentedAll(Skipped(rows, cap))) == multiset(PresentedAll(rows))
    ensures |Kept(rows, cap)| + |Skipped(rows, cap)| == |rows|
  {
    hide Kept, Skipped, PresentedAll, Presented, Provider, Count;
    if rows != [] {
      var front, last := rows[..|rows| - 1], rows[|rows| - 1];
      KeptAndSkipped(front, cap);
      LastRow(rows, cap);
      PresentedOneMore(front, last);
      PresentedOneMore(Skipped(front, cap), last);
    } else {
      NothingToKeep(cap, "");
    }
  }

  /** part is made of the presented rows at these places, in the order of the rows. */
  ghost predicate InOrder(rows: seq<Row>, part: seq<Row>, places: seq<nat>) {
    && |places| == |part|
    && (forall i :: 0 <= i < |places| ==> places[i] < |rows| && part[i] == Presented(rows[places[i]]))
    && forall i, j :: 0 <= i < j < |places| ==> places[i] < places[j]
  }

  lemma InOrderOneMore(rows: seq<Row>, row: Row, part: seq<Row>, places: seq<nat>)
    requires InOrder(rows, part, places)
    ensures InOrder(rows + [row], part, places)
    ensures InOrder(rows + [row], part + [Presented(row)], places + [|rows|])
  {
  }

  /** Kept and skipped rows are subsequences of the candidates. */
  lemma {:induction false} KeptInOrder(rows: seq<Row>, cap: nat) returns (kept: seq<nat>, skipped: seq<nat>)
    ensures InOrder(rows, Kept(rows, cap), kept) && InOrder(rows, PresentedAll(Skipped(rows, cap)), skipped)
    ensures forall i :: 0 <= i < |rows| ==> (i in kept) != (i in skipped)
  {
    hide Kept, Skipped, PresentedAll, Presented, Provider, Count, InOrder;
    if rows == [] {
      kept, skipped := [], [];
      NothingToKeep(cap, "");
      NothingInOrder(rows);
    } else {
      var front, last := rows[..|rows| - 1], rows[|rows| - 1];
      kept, skipped := KeptInOrder(front, cap);
      LastRow(rows, cap);
      PresentedOneMore(Skipped(front, cap), last);
      InOrderOneMore(front, last, Kept(front, cap), kept);
      InOrderOneMore(front, last, PresentedAll(Skipped(front, cap)), skipped);
      PlacesBelow(front, Kept(front, cap), kept);
      PlacesBelow(front, PresentedAll(Skipped(front, cap)), skipped);
      if Count(front, Provider(last)) < cap {
        kept := kept + [|front|];
      } else {
        skipped := skipped + [|front|];
      }
    }
  }

  lemma NothingInOrder(rows: seq<Row>)
    ensures InOrder(rows, [], [])
  {
  }

  lemma PlacesBelow(rows: seq<Row>, part: seq<Row>, places: seq<nat>)
    requires InOrder(rows, part, places)
    ensures |rows| !in places
  {
  }

  /** What is shown: the kept rows in the candidates' order, and behind them either nothing or the skipped ones in theirs. */
  lemma ShownInOrder(rows: seq<Row>) returns (kept: seq<nat>, skipped: seq<nat>)
    ensures var n, cap := |Kept(rows, Cap(|rows|))|, Cap(|rows|);
            && n <= |Shown(rows)| && InOrder(rows, Shown(rows)[..n], kept)
            && (if n < Min(10, |rows|) then InOrder(rows, Shown(rows)[n..], skipped) else Shown(rows)[n..] == [])
    ensures forall i :: 0 <= i < |rows| ==> (i in kept) != (i in skipped)
  {
    hide InOrder, Kept, Skipped, PresentedAll;
    kept, skipped := KeptInOrder(rows, Cap(|rows|));
    var all := Kept(rows, Cap(|rows|)) + PresentedAll(Skipped(rows, Cap(|rows|)));
    assert all[..|Kept(rows, Cap(|rows|))|] == Kept(rows, Cap(|rows|)) == Kept(rows, Cap(|rows|))[..|Kept(rows, Cap(|rows|))|];
    assert all[|Kept(rows, Cap(|rows|))|..] == PresentedAll(Skipped(rows, Cap(|rows|)));
  }

  lemma {:induction false} TwoProviders(rows: seq<Row>, p: string, q: string)
    requires p != q
    ensures Count(rows, p) + Count(rows, q) <= |rows|
  {
    if rows != [] {
      TwoProviders(rows[..|rows| - 1], p, q);
    }
  }

  lemma {:induction false} SomeoneWasSkipped(rows: seq<Row>, cap: nat) returns (p: string)
    requires Skipped(rows, cap) != []
    ensures Count(rows, p) > cap
  {
    var front, last := rows[..|rows| - 1], rows[|rows| - 1];
    if Count(front, Provider(last)) < cap {
      assert Skipped(front, cap) + [] == Skipped(front, cap);
      p := SomeoneWasSkipped(front, cap);
    } else {
      p := Provider(last);
    }
  }

  /** At most one provider ever loses rows to the cap. */
  lemma AtMostOneLoses(rows: seq<Row>, p: string, q: string)
    requires p != q && Count(Skipped(rows, Cap(|rows|)), p) > 0
    ensures Count(Skipped(rows, Cap(|rows|)), q) == 0
  {
    KeptPerProvider(rows, Cap(|rows|), p);
    KeptPerProvider(rows, Cap(|rows|), q);
    TwoProviders(rows, p, q);
  }

  /** At least cap rows get through, if there are any rows at all. */
  lemma AtLeastCapKept(rows: seq<Row>)
    ensures |Kept(rows, Cap(|rows|))| >= Cap(|rows|) <==> rows != []
  {
    var cap := Cap(|rows|);
    KeptAndSkipped(rows, cap);
    if Skipped(rows, cap) != [] {
      var p := SomeoneWasSkipped(rows, cap);
      KeptPerProvider(rows, cap, p);
    }
  }

  /** Never fewer than min(10, n) rows are shown; all candidates are shown exactly when the cap drops none or leaves
      fewer than ten; and otherwise every provider is within the cap. */
  lemma ShownRows(rows: seq<Row>)
    ensures |Shown(rows)| >= Min(10, |rows|)
    ensures multiset(Shown(rows)) <= multiset(PresentedAll(rows))
    ensures multiset(Shown(rows)) == multiset(PresentedAll(rows)) <==>
              Skipped(rows, Cap(|rows|)) == [] || |Kept(rows, Cap(|rows|))| < 10
    ensures multiset(Shown(rows)) != multiset(PresentedAll(rows)) ==> forall p :: Count(Shown(rows), p) <= Cap(|rows|)
  {
    var cap := Cap(|rows|);
    KeptAndSkipped(rows, cap);
    forall p
      ensures Count(Kept(rows, cap), p) <= cap
    {
      KeptPerProvider(rows, cap, p);
    }
    assert |multiset(Shown(rows))| == |Shown(rows)|;
    assert |multiset(PresentedAll(rows))| == |rows|;
  }

  // ---------- the whole pipeline ----------

  predicate HasKey(t: Text, rows: seq<Row>, key: string) {
    exists i :: 0 <= i < |rows| && DedupeKey(t, rows[i]) == key
  }

  /** One row per key, the one that wins it. */
  ghost predicate OnePerKey(t: Text, rows: seq<Row>, ordered: seq<Row>) {
    && (forall i :: 0 <= i < |ordered| ==> Wins(t, rows, DedupeKey(t, ordered[i]), ordered[i]))
    && (forall i, j :: 0 <= i < j < |ordered| ==> DedupeKey(t, ordered[i]) != DedupeKey(t, ordered[j]))
    && (forall j :: 0 <= j < |rows| ==> HasKey(t, ordered, DedupeKey(t, rows[j])))
  }

  /** One of the rows is for the same thing, with a higher rank, or the same one and no lower priority. */
  ghost predicate Represented(t: Text, ordered: seq<Row>, row: Row) {
    exists i :: 0 <= i < |ordered| && SameThing(t, ordered[i], row)
                && (ordered[i].rank > row.rank || (ordered[i].rank == row.rank && ordered[i].priority >= row.priority))
  }

  /** So every candidate is shown as itself or as a better row for the same thing, and nothing is shown twice. */
  lemma ShownOnce(t: Text, rows: seq<Row>, ordered: seq<Row>)
    requires OnePerKey(t, rows, ordered)
    ensures forall j :: 0 <= j < |rows| ==> Represented(t, ordered, rows[j])
    ensures forall i, j :: 0 <= i < j < |ordered| ==> !SameThing(t, ordered[i], ordered[j])
    ensures forall i :: 0 <= i < |ordered| ==> ordered[i] in rows
  {
    hide DedupeKey, SameThing, Beats, OnePerKey;
    forall j | 0 <= j < |rows|
      ensures Represented(t, ordered, rows[j])
    {
      var i := Representative(t, rows, ordered, j);
    }
    OneRowPerKey(t, rows, ordered);
    forall i, j | 0 <= i < j < |ordered| ensures !SameThing(t, ordered[i], ordered[j]) {
      SameKeyExactly(t, ordered[i], ordered[j]);
    }
  }

  lemma OneRowPerKey(t: Text, rows: seq<Row>, ordered: seq<Row>)
    requires OnePerKey(t, rows, ordered)
    ensures forall i, j :: 0 <= i < j < |ordered| ==> DedupeKey(t, ordered[i]) != DedupeKey(t, ordered[j])
    ensures forall i :: 0 <= i < |ordered| ==> ordered[i] in rows
  {
    hide DedupeKey, Beats;
    forall i | 0 <= i < |ordered| ensures ordered[i] in rows {
      assert Wins(t, rows, DedupeKey(t, ordered[i]), ordered[i]);
    }
  }

  lemma Representative(t: Text, rows: seq<Row>, ordered: seq<Row>, j: nat) returns (i: nat)
    requires OnePerKey(t, rows, ordered) && j < |rows|
    ensures i < |ordered| && SameThing(t, ordered[i], rows[j])
    ensures ordered[i].rank > rows[j].rank || (ordered[i].rank == rows[j].rank && ordered[i].priority >= rows[j].priority)
  {
    hide DedupeKey, SameThing;
    assert HasKey(t, ordered, DedupeKey(t, rows[j]));
    i :| 0 <= i < |ordered| && DedupeKey(t, ordered[i]) == DedupeKey(t, rows[j]);
    SameKeyExactly(t, ordered[i], rows[j]);
    WinnerIsUnbeaten(t, rows, ordered[i], j);
  }

  lemma WinnerIsUnbeaten(t: Text, rows: seq<Row>, winner: Row, j: nat)
    requires Wins(t, rows, DedupeKey(t, winner), winner) && j < |rows| && DedupeKey(t, rows[j]) == DedupeKey(t, winner)
    ensures !Beats(rows[j], winner)
  {
    hide DedupeKey, Beats;
    var i :| 0 <= i < |rows| && rows[i] == winner && IsWinner(t, rows, i);
  }

  method OrderCandidates(t: Text, rows: seq<Row>) returns (ordered: seq<Row>)
    ensures OnePerKey(t, rows, ordered) && LaidOut(ordered)
    ensures forall j :: 0 <= j < |rows| ==> Represented(t, ordered, rows[j])
    ensures forall i, j :: 0 <= i < j < |ordered| ==> !SameThing(t, ordered[i], ordered[j])
  {
    var keys, chosen := Deduplicate(t, rows);
    ordered := Arrange(keys, chosen);
    PermutedOnePerKey(t, rows, keys, chosen, ordered);
    ShownOnce(t, rows, ordered);
  }

  /** Any arrangement of the chosen rows has one row per key. */
  lemma PermutedOnePerKey(t: Text, rows: seq<Row>, keys: seq<string>, chosen: map<string, Row>, ordered: seq<Row>)
    requires IsDeduped(t, rows, keys, chosen) && multiset(ordered) == multiset(Selected(keys, chosen))
    ensures OnePerKey(t, rows, ordered)
  {
    var selected := Selected(keys, chosen);
    forall k | k in chosen
      ensures DedupeKey(t, chosen[k]) == k
    {
      assert Wins(t, rows, k, chosen[k]);
    }
    forall i | 0 <= i < |ordered|
      ensures chosen.Keys >= {DedupeKey(t, ordered[i])} && chosen[DedupeKey(t, ordered[i])] == ordered[i]
    {
      var a := FoundIn(ordered, selected, i);
      assert keys[a] in keys;
    }
    forall j | 0 <= j < |rows|
      ensures HasKey(t, ordered, DedupeKey(t, rows[j]))
    {
      var k := DedupeKey(t, rows[j]);
      var a :| 0 <= a < |keys| && keys[a] == k;
      var i := FoundIn(selected, ordered, a);
      assert DedupeKey(t, ordered[i]) == k;
    }
    forall a, b | 0 <= a < b < |selected|
      ensures selected[a] != selected[b]
    {
      assert keys[a] in keys && keys[b] in keys;
    }
    PermutationStaysDistinct(selected, ordered);
  }

  lemma FoundIn(a: seq<Row>, b: seq<Row>, i: nat) returns (j: nat)
    requires multiset(a) == multiset(b) && i < |a|
    ensures j < |b| && b[j] == a[i]
  {
    assert a[i] in multiset(b);
    j :| 0 <= j < |b| && b[j] == a[i];
  }

  lemma {:induction false} OnceInDistinct(s: seq<Row>, r: Row)
    requires forall i, j :: 0 <= i < j < |s| ==> s[i] != s[j]
    ensures multiset(s)[r] <= 1
  {
    if s != [] {
      OnceInDistinct(s[1..], r);
      assert s == [s[0]] + s[1..];
      if r == s[0] {
        assert r !in s[1..];
      }
    }
  }

  lemma PermutationStaysDistinct(a: seq<Row>, b: seq<Row>)
    requires multiset(a) == multiset(b)
    requires forall i, j :: 0 <= i < j < |a| ==> a[i] != a[j]
    ensures forall i, j :: 0 <= i < j < |b| ==> b[i] != b[j]
  {
    forall i, j | 0 <= i < j < |b|
      ensures b[i] != b[j]
    {
      OnceInDistinct(a, b[j]);
      var front, back := b[..j], b[j..];
      assert b == front + back;
      assert back[0] == b[j] && b[j] in multiset(back);
      assert multiset(b)[b[j]] == multiset(front)[b[j]] + multiset(back)[b[j]];
      assert b[j] !in multiset(front);
      assert front[i] in multiset(front);
    }
  }
}
