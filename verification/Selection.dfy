/**
 Which entries of a folder view are selected. Every operation rebuilds the list of selected indexes; the current
 entry and the anchor of range selection are kept beside it.
 */
module Selection {
  import opened Prelude
  import opened Sorting

  datatype Selected = Selected(current: int, list: seq<int>, anchor: int)

  const NOTHING := Selected(-1, [], -1)

  // ---------- what the operations compute ----------

  function AtMost(): (int, int) -> bool {
    (a: int, b: int) => a <= b
  }

  /** The nonnegative indexes of a list, each where it first occurs. */
  function FirstOnes(indexes: seq<int>): (r: seq<int>)
    ensures forall x :: x in r <==> x in indexes && x >= 0
    ensures forall i, j :: 0 <= i < j < |r| ==> r[i] != r[j]
  {
    if indexes == [] then [] else
      var n := |indexes| - 1;
      var before := FirstOnes(indexes[..n]);
      assert indexes == indexes[..n] + [indexes[n]];
      if indexes[n] >= 0 && indexes[n] !in before then before + [indexes[n]] else before
  }

  function Normal(indexes: seq<int>): (r: seq<int>)
    ensures forall x :: x in r <==> x in indexes && x >= 0
  {
    var first := FirstOnes(indexes);
    var r := SortBy(AtMost(), first);
    assert forall x :: x in r <==> x in multiset(r);
    assert forall x :: x in first <==> x in multiset(first);
    r
  }

  function Normalize(s: Selected, indexes: seq<int>): Selected {
    var list := Normal(indexes);
    if list == [] then NOTHING
    else
      var current := if s.current in list then s.current else list[|list| - 1];
      Selected(current, list, if s.anchor < 0 then current else s.anchor)
  }

  function Single(index: int): Selected {
    if index < 0 then NOTHING else Selected(index, [index], index)
  }

  function Span(first: int, last: int): seq<int>
    requires first <= last + 1
  {
    seq(last + 1 - first, i => first + i)
  }

  function AnchorFor(s: Selected, index: int): int {
    if s.anchor >= 0 then s.anchor else if s.current >= 0 then s.current else index
  }

  function WithoutFirst(list: seq<int>, x: int): seq<int> {
    if list == [] then [] else if list[0] == x then list[1..] else [list[0]] + WithoutFirst(list[1..], x)
  }

  function Click(s: Selected, index: int, primary: bool, shift: bool): Selected {
    if index < 0 then NOTHING
    else if shift then
      var from := AnchorFor(s, index);
      var range := Span(Min(from, index), Max(from, index));
      Normalize(s, (if primary then s.list else []) + range).(current := index)
    else if primary then
      if index in s.list then Normalize(s, WithoutFirst(s.list, index))
      else Normalize(s, s.list + [index]).(current := index, anchor := index)
    else Single(index)
  }

  function All(count: int): Selected {
    if count <= 0 then NOTHING else Selected(count - 1, Span(0, count - 1), 0)
  }

  /** The indexes of base, each rectangle index toggling its own membership in turn. */
  function Toggled(base: set<int>, indexes: seq<int>): set<int>
    decreases |indexes|
  {
    if indexes == [] then base
    else
      var n := |indexes| - 1;
      var before := Toggled(base, indexes[..n]);
      if indexes[n] < 0 then before
      else if indexes[n] in before then before - {indexes[n]} else before + {indexes[n]}
  }

  lemma SmallestExists(xs: set<int>)
    requires xs != {}
    decreases |xs|
    ensures exists m :: m in xs && forall x :: x in xs ==> m <= x
  {
    if forall x :: x !in xs {
      assert false;
    }
    var x :| x in xs;
    var rest := xs - {x};
    if rest == {} {
      assert xs == {x};
    } else {
      SmallestExists(rest);
      var m :| m in rest && forall y :: y in rest ==> m <= y;
      assert forall y :: y in xs ==> y == x || y in rest;
      assert Min(m, x) in xs && forall y :: y in xs ==> Min(m, x) <= y;
    }
  }

  function Smallest(xs: set<int>): (m: int)
    requires xs != {}
    ensures m in xs && forall x :: x in xs ==> m <= x
  {
    SmallestExists(xs);
    var m :| m in xs && forall x :: x in xs ==> m <= x;
    m
  }

  function Ascending(xs: set<int>): (r: seq<int>)
    ensures forall x :: x in r <==> x in xs
  {
    if xs == {} then [] else
      var m := Smallest(xs);
      [m] + Ascending(xs - {m})
  }

  function Nonnegative(indexes: seq<int>): set<int> {
    set x | x in indexes && x >= 0
  }

  /** What a rectangle selects: with the primary modifier it toggles, with shift it adds. */
  function Wanted(indexes: seq<int>, primary: bool, shift: bool, base: seq<int>): seq<int> {
    if primary then Ascending(Toggled(Nonnegative(base), indexes))
    else if shift then base + indexes
    else indexes
  }

  function Last(indexes: seq<int>): int {
    if indexes == [] then -1 else indexes[|indexes| - 1]
  }

  /** An anchor of 0 reads as no anchor. */
  function Rect(s: Selected, indexes: seq<int>, primary: bool, shift: bool, anchorIndex: int, base: seq<int>): Selected {
    var s1 := Normalize(s, Wanted(indexes, primary, shift, base));
    if s1.list == [] then s1.(current := -1)
    else
      var current := if Last(indexes) >= 0 && Last(indexes) in s1.list then Last(indexes) else s1.list[0];
      s1.(current := current,
          anchor := if shift || primary then s1.anchor else if anchorIndex > 0 then anchorIndex else current)
  }

  /** A context menu on a selected entry makes it current; on another one it selects that alone. */
  function MenuAt(s: Selected, index: int): Selected {
    if index < 0 then s
    else if index !in s.list then Single(index)
    else s.(current := index, anchor := if s.anchor < 0 then index else s.anchor)
  }

  // ---------- the object ----------

  class FileManagerSelection {
    var selectedEntryIndex: int
    var selectedEntryIndexes: seq<int>
    var selectionAnchorIndex: int

    function View(): Selected
      reads this
    {
      Selected(selectedEntryIndex, selectedEntryIndexes, selectionAnchorIndex)
    }

    constructor ()
      ensures View() == NOTHING && Inv(View())
    {
      selectedEntryIndex, selectedEntryIndexes, selectionAnchorIndex := -1, [], -1;
    }

    method ClearSelection()
      modifies this
      ensures View() == NOTHING
    {
      selectedEntryIndex := -1;
      selectedEntryIndexes := [];
      selectionAnchorIndex := -1;
    }

    method SetSingleSelection(index: int)
      modifies this
      ensures View() == Single(index) && Inv(View())
    {
      if index < 0 {
        ClearSelection();
        return;
      }
      selectedEntryIndex := index;
      selectedEntryIndexes := [index];
      selectionAnchorIndex := index;
    }

    static method KeepFirst(indexes: seq<int>) returns (out: seq<int>)
      ensures out == FirstOnes(indexes)
    {
      var seen: set<int>, i := {}, 0;
      out := [];
      while i < |indexes|
        invariant 0 <= i <= |indexes|
        invariant out == FirstOnes(indexes[..i])
        invariant forall x :: x in seen <==> x in out
      {
        assert indexes[..i + 1][..i] == indexes[..i];
        if indexes[i] >= 0 && indexes[i] !in seen {
          seen := seen + {indexes[i]};
          out := out + [indexes[i]];
        }
        i := i + 1;
      }
      assert indexes[..i] == indexes;
    }

    method NormalizeSelection(indexes: seq<int>)
      modifies this
      ensures View() == Normalize(old(View()), indexes)
    {
      hide FirstOnes, SortBy;
      var out := KeepFirst(indexes);
      out := SortBy(AtMost(), out);
      assert out == Normal(indexes);
      selectedEntryIndexes := out;
      if |out| <= 0 {
        selectedEntryIndex := -1;
        selectionAnchorIndex := -1;
        return;
      }
      if selectedEntryIndex !in out {
        selectedEntryIndex := out[|out| - 1];
      }
      if selectionAnchorIndex < 0 {
        selectionAnchorIndex := selectedEntryIndex;
      }
    }

    method ApplySelectionRequest(index: int, primary: bool, shift: bool)
      modifies this
      ensures View() == Click(old(View()), index, primary, shift)
      ensures old(Inv(View())) ==> Inv(View())
    {
      hide Normal, Inv;
      if Inv(View()) {
        ClickKeeps(View(), index, primary, shift);
      }
      if index < 0 {
        ClearSelection();
        return;
      }
      if shift {
        var from := AnchorFor(View(), index);
        var start, end := Min(from, index), Max(from, index);
        var range, r := [], start;
        while r <= end
          invariant start <= r <= end + 1
          invariant range == Span(start, r - 1)
        {
          range := range + [r];
          r := r + 1;
        }
        NormalizeSelection((if primary then selectedEntryIndexes else []) + range);
        selectedEntryIndex := index;
        return;
      }
      if primary {
        if index in selectedEntryIndexes {
          NormalizeSelection(WithoutFirst(selectedEntryIndexes, index));
        } else {
          NormalizeSelection(selectedEntryIndexes + [index]);
          selectedEntryIndex := index;
          selectionAnchorIndex := index;
        }
        return;
      }
      SetSingleSelection(index);
    }

    method SelectAllVisibleEntries(count: int)
      modifies this
      ensures View() == All(count) && Inv(View())
    {
      hide Inv;
      AllSelects(count);
      if count <= 0 {
        ClearSelection();
        return;
      }
      var all, i := [], 0;
      while i < count
        invariant 0 <= i <= count
        invariant all == Span(0, i - 1)
      {
        all := all + [i];
        i := i + 1;
      }
      selectedEntryIndexes := all;
      selectedEntryIndex := all[|all| - 1];
      selectionAnchorIndex := 0;
    }

    static method Toggle(indexes: seq<int>, base: seq<int>) returns (toggled: seq<int>)
      ensures toggled == Wanted(indexes, true, false, base)
    {
      var baseMap: set<int>, i := {}, 0;
      while i < |base|
        invariant 0 <= i <= |base|
        invariant baseMap == Nonnegative(base[..i])
      {
        assert base[..i + 1] == base[..i] + [base[i]];
        if base[i] >= 0 {
          baseMap := baseMap + {base[i]};
        }
        i := i + 1;
      }
      assert base[..i] == base;
      var j := 0;
      while j < |indexes|
        invariant 0 <= j <= |indexes|
        invariant baseMap == Toggled(Nonnegative(base), indexes[..j])
      {
        assert indexes[..j + 1][..j] == indexes[..j];
        if indexes[j] >= 0 {
          if indexes[j] in baseMap {
            baseMap := baseMap - {indexes[j]};
          } else {
            baseMap := baseMap + {indexes[j]};
          }
        }
        j := j + 1;
      }
      assert indexes[..j] == indexes;
      toggled := [];
      var rest := baseMap;
      while rest != {}
        invariant toggled + Ascending(rest) == Ascending(baseMap)
        decreases |rest|
      {
        var key := Smallest(rest);
        toggled := toggled + [key];
        rest := rest - {key};
      }
    }

    method ApplySelectionRect(indexes: seq<int>, primary: bool, shift: bool, anchorIndex: int, base: seq<int>)
      modifies this
      ensures View() == Rect(old(View()), indexes, primary, shift, anchorIndex, base) && Inv(View())
    {
      hide Normal, Toggled, Ascending, Inv;
      RectKeeps(View(), indexes, primary, shift, anchorIndex, base);
      if primary {
        var toggled := Toggle(indexes, base);
        NormalizeSelection(toggled);
      } else if shift {
        NormalizeSelection(base + indexes);
      } else {
        NormalizeSelection(indexes);
      }
      assert View() == Normalize(old(View()), Wanted(indexes, primary, shift, base));
      if |selectedEntryIndexes| > 0 {
        assert selectedEntryIndexes[0] in selectedEntryIndexes;
        var lastRectIndex := if |indexes| > 0 then indexes[|indexes| - 1] else -1;
        if lastRectIndex >= 0 && lastRectIndex in selectedEntryIndexes {
          selectedEntryIndex := lastRectIndex;
        } else {
          selectedEntryIndex := selectedEntryIndexes[0];
        }
        if !shift && !primary {
          var anchor := if anchorIndex == 0 then -1 else anchorIndex;
          if anchor >= 0 {
            selectionAnchorIndex := anchor;
          } else if selectedEntryIndex >= 0 {
            selectionAnchorIndex := selectedEntryIndex;
          }
        }
      } else {
        selectedEntryIndex := -1;
      }
    }

    method HandleContextMenuRequested(index: int)
      modifies this
      ensures View() == MenuAt(old(View()), index)
      ensures old(Inv(View())) ==> Inv(View())
    {
      if index < 0 {
        return;
      }
      if index !in selectedEntryIndexes {
        SetSingleSelection(index);
      } else {
        selectedEntryIndex := index;
        if selectionAnchorIndex < 0 {
          selectionAnchorIndex := index;
        }
      }
    }
  }

  // ---------- what the lists are ----------

  ghost predicate Rising(list: seq<int>) {
    && (forall i :: 0 <= i < |list| ==> list[i] >= 0)
    && forall i, j :: 0 <= i < j < |list| ==> list[i] < list[j]
  }

  ghost predicate SameMembers(a: seq<int>, b: seq<int>) {
    forall x :: x in a <==> x in b
  }

  /** A strictly increasing list is determined by its members. */
  lemma {:induction false} RisingIsUnique(a: seq<int>, b: seq<int>)
    requires Rising(a) && Rising(b) && SameMembers(a, b)
    ensures a == b
  {
    assert a != [] ==> a[0] in a;
    assert b != [] ==> b[0] in b;
    if a != [] && b != [] {
      assert a[0] in b && b[0] in a;
      assert a[0] == b[0];
      forall x ensures x in a[1..] <==> x in b[1..] {
        assert x in a[1..] <==> x in a && x != a[0] by { TailMembers(a, x); }
        assert x in b[1..] <==> x in b && x != b[0] by { TailMembers(b, x); }
      }
      RisingIsUnique(a[1..], b[1..]);
      assert a == [a[0]] + a[1..] && b == [b[0]] + b[1..];
    }
  }

  lemma TailMembers(a: seq<int>, x: int)
    requires Rising(a) && a != []
    ensures x in a[1..] <==> x in a && x != a[0]
  {
  }

  /** Normalizing keeps the nonnegative indexes, each once, in increasing order. */
  lemma NormalRises(indexes: seq<int>)
    ensures Rising(Normal(indexes)) && forall x :: x in Normal(indexes) <==> x in indexes && x >= 0
  {
    hide FirstOnes, SortBy;
    var first, r := FirstOnes(indexes), Normal(indexes);
    SortBySorts(AtMost(), first);
    forall i, j | 0 <= i < j < |r| ensures r[i] < r[j] {
      if r[i] == r[j] {
        TwiceInMultiset(r, i, j);
        OnceInMultiset(first, r[i]);
        assert false;
      }
    }
    assert forall i :: 0 <= i < |r| ==> r[i] in r;
  }

  lemma NormalIsItself(list: seq<int>)
    requires Rising(list)
    ensures Normal(list) == list
  {
    hide Normal;
    NormalRises(list);
    RisingIsUnique(Normal(list), list);
  }

  lemma TwiceInMultiset(s: seq<int>, i: nat, j: nat)
    requires i < j < |s| && s[i] == s[j]
    ensures multiset(s)[s[i]] >= 2
  {
    assert s == s[..j] + [s[j]] + s[j + 1..];
    assert s[i] in s[..j] && s[i] in multiset(s[..j]);
  }

  lemma {:induction false} OnceInMultiset(s: seq<int>, x: int)
    requires forall i, j :: 0 <= i < j < |s| ==> s[i] != s[j]
    ensures multiset(s)[x] <= 1
  {
    if s != [] {
      OnceInMultiset(s[1..], x);
      assert s == [s[0]] + s[1..];
      assert s[0] !in s[1..] && s[0] !in multiset(s[1..]);
    }
  }

  lemma SpanRises(first: int, last: int)
    requires 0 <= first <= last + 1
    ensures Rising(Span(first, last)) && forall x :: x in Span(first, last) <==> first <= x <= last
  {
    forall x | first <= x <= last ensures x in Span(first, last) {
      assert Span(first, last)[x - first] == x;
    }
  }

  // ---------- what every run keeps ----------

  /** The list is strictly increasing; without a selection there is no current entry and no anchor. */
  ghost predicate Inv(s: Selected) {
    && Rising(s.list)
    && if s.list == [] then s == NOTHING else s.current in s.list && s.anchor >= 0
  }

  lemma NormalizeKeeps(s: Selected, indexes: seq<int>)
    ensures Inv(Normalize(s, indexes))
    ensures forall x :: x in Normalize(s, indexes).list <==> x in indexes && x >= 0
    ensures s.anchor >= 0 && Normalize(s, indexes).list != [] ==> Normalize(s, indexes).anchor == s.anchor
  {
    NormalRises(indexes);
    var list := Normal(indexes);
    if list != [] {
      assert list[|list| - 1] in list;
    }
  }

  lemma WithoutMembers(list: seq<int>, x: int)
    requires Rising(list)
    ensures forall y :: y in WithoutFirst(list, x) <==> y in list && y != x
  {
  }

  /** A plain click selects one entry; with the primary modifier exactly that entry changes sides. */
  lemma ClickSelects(s: Selected, index: int)
    requires Inv(s) && index >= 0
    ensures Click(s, index, false, false) == Selected(index, [index], index)
    ensures var s' := Click(s, index, true, false);
            Inv(s') && forall x :: x in s'.list <==> ((x in s.list) != (x == index))
    ensures index !in s.list ==> Click(s, index, true, false).current == Click(s, index, true, false).anchor == index
  {
    if index in s.list {
      WithoutMembers(s.list, index);
      NormalizeKeeps(s, WithoutFirst(s.list, index));
    } else {
      NormalizeKeeps(s, s.list + [index]);
    }
    assert forall x :: x in s.list ==> x >= 0;
  }

  /** A click on nothing clears the selection, whatever the modifiers. */
  lemma ClickNowhere(s: Selected, index: int, primary: bool, shift: bool)
    requires index < 0
    ensures Click(s, index, primary, shift).list == [] && Inv(Click(s, index, primary, shift))
  {
  }

  /** Clicking twice with the primary modifier changes nothing in the list. */
  lemma ClickTwice(s: Selected, index: int)
    requires Inv(s) && index >= 0
    ensures Click(Click(s, index, true, false), index, true, false).list == s.list
  {
    var s1 := Click(s, index, true, false);
    ClickSelects(s, index);
    ClickSelects(s1, index);
    hide Click;
    RisingIsUnique(Click(s1, index, true, false).list, s.list);
  }

  /** The indexes a shift-click asks for. */
  function Reach(s: Selected, index: int, primary: bool): seq<int> {
    var from := AnchorFor(s, index);
    (if primary then s.list else []) + Span(Min(from, index), Max(from, index))
  }

  lemma ReachMembers(s: Selected, index: int, primary: bool)
    requires Inv(s) && index >= 0
    ensures var from := if s.list == [] then index else s.anchor;
            && AnchorFor(s, index) == from
            && forall x :: x in Reach(s, index, primary) <==>
                           Min(from, index) <= x <= Max(from, index) || (primary && x in s.list)
  {
    var from := AnchorFor(s, index);
    SpanRises(Min(from, index), Max(from, index));
    var extra := if primary then s.list else [];
    hide Span;
    assert forall x :: x in Reach(s, index, primary) <==> x in extra || x in Span(Min(from, index), Max(from, index));
  }

  lemma ShiftIsNormalized(s: Selected, index: int, primary: bool)
    requires index >= 0
    ensures Click(s, index, primary, true) == Normalize(s, Reach(s, index, primary)).(current := index)
  {
    hide Normalize, Span;
  }

  /** With shift: all entries from the anchor to the clicked one, added to the list if the primary modifier is down too. */
  lemma ShiftSelects(s: Selected, index: int, primary: bool)
    requires Inv(s) && index >= 0
    ensures var s', from := Click(s, index, primary, true), if s.list == [] then index else s.anchor;
            && Inv(s') && s'.current == index && s'.anchor == from
            && forall x :: x in s'.list <==> Min(from, index) <= x <= Max(from, index) || (primary && x in s.list)
  {
    hide Reach, Normalize, Click, Span, Normal;
    var wanted, s1 := Reach(s, index, primary), Normalize(s, Reach(s, index, primary));
    ReachMembers(s, index, primary);
    NormalizeKeeps(s, wanted);
    ShiftIsNormalized(s, index, primary);
    assert forall x :: x in s.list ==> x >= 0;
    assert forall x :: x in s1.list <==> x in wanted;
    assert index in wanted;
    assert index in s1.list;
    if s.list == [] {
      RisingIsUnique(s1.list, [index]);
      OneEntry(s, wanted, index);
    }
  }

  lemma OneEntry(s: Selected, indexes: seq<int>, index: int)
    requires s == NOTHING && Normalize(s, indexes).list == [index]
    ensures Normalize(s, indexes).anchor == index
  {
  }

  /** A second shift-click replaces the range of the first one. */
  lemma ShiftReplaces(s: Selected, first: int, second: int)
    requires Inv(s) && first >= 0 && second >= 0 && s.list != []
    ensures Click(Click(s, first, false, true), second, false, true) == Click(s, second, false, true)
  {
    var s1 := Click(s, first, false, true);
    ShiftSelects(s, first, false);
    assert first in s1.list;
    ShiftSelects(s1, second, false);
    ShiftSelects(s, second, false);
    var a, b := Click(s1, second, false, true), Click(s, second, false, true);
    hide Click;
    RisingIsUnique(a.list, b.list);
  }

  lemma AllSelects(count: int)
    ensures Inv(All(count)) && forall x :: x in All(count).list <==> 0 <= x < count
    ensures count > 0 ==> All(count).current == count - 1 && All(count).anchor == 0
  {
    if count > 0 {
      SpanRises(0, count - 1);
    }
  }

  // ---------- rectangles ----------

  /** An index is toggled as often as the rectangle lists it. */
  lemma {:induction false} ToggledByParity(base: set<int>, indexes: seq<int>, x: int)
    ensures x in Toggled(base, indexes) <==> ((x in base) != (x >= 0 && multiset(indexes)[x] % 2 == 1))
    decreases |indexes|
  {
    if indexes != [] {
      var n := |indexes| - 1;
      ToggledByParity(base, indexes[..n], x);
      assert indexes == indexes[..n] + [indexes[n]];
      assert multiset(indexes)[x] == multiset(indexes[..n])[x] + if x == indexes[n] then 1 else 0;
    }
  }

  lemma RectKeeps(s: Selected, indexes: seq<int>, primary: bool, shift: bool, anchorIndex: int, base: seq<int>)
    ensures var s' := Rect(s, indexes, primary, shift, anchorIndex, base);
            Inv(s') && forall x :: x in s'.list <==> x in Wanted(indexes, primary, shift, base) && x >= 0
  {
    hide Wanted;
    var s1 := Normalize(s, Wanted(indexes, primary, shift, base));
    NormalizeKeeps(s, Wanted(indexes, primary, shift, base));
    if s1.list != [] {
      assert s1.list[0] in s1.list;
    }
  }

  /** With the primary modifier: the symmetric difference of base and rectangle, repeated indexes counting by parity. */
  lemma RectToggles(s: Selected, indexes: seq<int>, shift: bool, anchorIndex: int, base: seq<int>)
    ensures var s' := Rect(s, indexes, true, shift, anchorIndex, base);
            forall x :: x in s'.list <==> x >= 0 && ((x in base) != (multiset(indexes)[x] % 2 == 1))
  {
    RectKeeps(s, indexes, true, shift, anchorIndex, base);
    forall x ensures x in Wanted(indexes, true, shift, base) <==>
                     ((x in Nonnegative(base)) != (x >= 0 && multiset(indexes)[x] % 2 == 1))
    {
      ToggledByParity(Nonnegative(base), indexes, x);
    }
  }

  /** The same rectangle over its own result gives the base back. */
  lemma RectTwice(s: Selected, indexes: seq<int>, anchorIndex: int, base: seq<int>)
    requires Rising(base)
    ensures var once := Rect(s, indexes, true, false, anchorIndex, base).list;
            Rect(s, indexes, true, false, anchorIndex, once).list == base
  {
    var once := Rect(s, indexes, true, false, anchorIndex, base).list;
    RectToggles(s, indexes, false, anchorIndex, base);
    RectToggles(s, indexes, false, anchorIndex, once);
    RectKeeps(s, indexes, true, false, anchorIndex, once);
    var twice := Rect(s, indexes, true, false, anchorIndex, once).list;
    hide Rect;
    forall x ensures x in twice <==> x in base {
      assert x in base ==> x >= 0;
    }
    RisingIsUnique(twice, base);
  }

  /** With shift the rectangle is added to the base, and a plain one replaces everything; either way the entry dragged over
      last is current, or else the first one selected. */
  lemma RectSelects(s: Selected, indexes: seq<int>, shift: bool, anchorIndex: int, base: seq<int>)
    ensures var s' := Rect(s, indexes, false, shift, anchorIndex, base);
            && (forall x :: x in s'.list <==> x >= 0 && (x in indexes || (shift && x in base)))
            && (shift && s.anchor >= 0 && s'.list != [] ==> s'.anchor == s.anchor)
            && (s'.list != [] ==> s'.current == if indexes != [] && indexes[|indexes| - 1] >= 0 then indexes[|indexes| - 1]
                                                else s'.list[0])
  {
    var wanted := Wanted(indexes, false, shift, base);
    RectKeeps(s, indexes, false, shift, anchorIndex, base);
    NormalizeKeeps(s, wanted);
    hide Normal;
    assert forall x :: x in wanted <==> x in indexes || (shift && x in base);
    assert Last(indexes) >= 0 ==> Last(indexes) in indexes;
  }

  /** A context menu leaves the selection as it is if it is opened on a part of it, and else selects that entry alone. */
  lemma MenuSelects(s: Selected, index: int)
    requires Inv(s) && index >= 0
    ensures var s' := MenuAt(s, index);
            && s'.current == index && index in s'.list
            && if index in s.list then s'.list == s.list && s'.anchor == s.anchor else s'.list == [index] && s'.anchor == index
  {
  }

  /** A list that is normalized keeps its current entry if that stays selected, and else takes the largest. */
  lemma NormalizedCurrent(s: Selected, indexes: seq<int>)
    requires exists x :: x in indexes && x >= 0
    ensures var s' := Normalize(s, indexes);
            && s'.list != [] && s'.current in s'.list
            && (s.current >= 0 && s.current in indexes ==> s'.current == s.current)
            && (!(s.current >= 0 && s.current in indexes) ==> forall x :: x in s'.list ==> x <= s'.current)
  {
    hide Normal;
    NormalRises(indexes);
    var list := Normal(indexes);
    var x :| x in indexes && x >= 0;
    assert x in list;
    assert list[|list| - 1] in list;
  }

  /** A plain rectangle with an entry in it takes over the anchor it is given, unless that is the first entry and the
      rectangle does not make the first entry current. */
  lemma RectAnchor(s: Selected, indexes: seq<int>, anchorIndex: int, base: seq<int>)
    requires anchorIndex >= 0
    ensures Rect(s, indexes, false, false, anchorIndex, base).anchor == anchorIndex <==>
            if anchorIndex > 0 then exists x :: x in indexes && x >= 0
            else if Last(indexes) >= 0 then Last(indexes) == 0
            else 0 in indexes
  {
    var s1, s' := Normalize(s, indexes), Rect(s, indexes, false, false, anchorIndex, base);
    RectKeeps(s, indexes, false, false, anchorIndex, base);
    assert s1.list == s'.list;
    assert Last(indexes) >= 0 ==> Last(indexes) in indexes;
    if s1.list != [] {
      assert s1.list[0] in s1.list;
    }
  }

  /** The first two entries, dragged over from the first one: the anchor becomes the second one. */
  lemma RectLosesAnchor(s: Selected, base: seq<int>)
    ensures Rect(s, [0, 1], false, false, 0, base) == Selected(1, [0, 1], 1)
  {
    hide Normal;
    assert Rising([0, 1]);
    NormalIsItself([0, 1]);
  }

  /** With the primary modifier a rectangle ought to toggle against what was selected before. It does exactly if the base
      it is given holds the same entries. */
  lemma RectTogglesEarlierExactly(s: Selected, indexes: seq<int>, shift: bool, anchorIndex: int, base: seq<int>)
    requires Inv(s)
    ensures var s' := Rect(s, indexes, true, shift, anchorIndex, base);
            (forall x :: x in s'.list <==> x >= 0 && ((x in s.list) != (multiset(indexes)[x] % 2 == 1))) <==>
            (forall x :: x >= 0 ==> (x in base <==> x in s.list))
  {
    RectToggles(s, indexes, shift, anchorIndex, base);
    var s' := Rect(s, indexes, true, shift, anchorIndex, base);
    hide Rect;
    if forall x :: x in s'.list <==> x >= 0 && ((x in s.list) != (multiset(indexes)[x] % 2 == 1)) {
      forall x | x >= 0 ensures x in base <==> x in s.list {
        assert x in s'.list <==> ((x in s.list) != (multiset(indexes)[x] % 2 == 1));
      }
    }
  }

  /** The window passes no base: then it does exactly if nothing was selected. */
  lemma RectTogglesNothingExactly(s: Selected, indexes: seq<int>, shift: bool, anchorIndex: int)
    requires Inv(s)
    ensures var s' := Rect(s, indexes, true, shift, anchorIndex, []);
            (forall x :: x in s'.list <==> x >= 0 && ((x in s.list) != (multiset(indexes)[x] % 2 == 1))) <==> s.list == []
  {
    RectTogglesEarlierExactly(s, indexes, shift, anchorIndex, []);
    if s.list != [] {
      assert s.list[0] in s.list && s.list[0] >= 0;
    }
  }

  /** With entry 0 selected, a rectangle over entry 1 with the primary modifier leaves entry 1 alone selected. */
  lemma RectForgetsSelection(anchorIndex: int)
    ensures Rect(Single(0), [1], true, false, anchorIndex, []).list == [1]
  {
    var s' := Rect(Single(0), [1], true, false, anchorIndex, []);
    RectToggles(Single(0), [1], false, anchorIndex, []);
    RectKeeps(Single(0), [1], true, false, anchorIndex, []);
    hide Rect;
    forall x ensures x in s'.list <==> x in [1] {
    }
    RisingIsUnique(s'.list, [1]);
  }

  /** The window passes no base, so there the primary modifier forgets what was selected before, like a plain rectangle. */
  lemma RectWithoutBase(s: Selected, t: Selected, indexes: seq<int>, anchorIndex: int)
    requires forall i, j :: 0 <= i < j < |indexes| ==> indexes[i] != indexes[j]
    ensures Rect(s, indexes, true, false, anchorIndex, []).list == Rect(t, indexes, false, false, anchorIndex, []).list
  {
    RectToggles(s, indexes, false, anchorIndex, []);
    RectKeeps(s, indexes, true, false, anchorIndex, []);
    RectKeeps(t, indexes, false, false, anchorIndex, []);
    var a, b := Rect(s, indexes, true, false, anchorIndex, []).list, Rect(t, indexes, false, false, anchorIndex, []).list;
    hide Rect;
    forall x ensures x in a <==> x in b {
      OnceInMultiset(indexes, x);
      assert x in indexes <==> x in multiset(indexes);
    }
    RisingIsUnique(a, b);
  }

  // ---------- runs ----------

  datatype Step =
    | Clear
    | SetSingle(index: int)
    | ClickAt(index: int, primary: bool, shift: bool)
    | SelectAll(count: int)
    | RectAt(indexes: seq<int>, primary: bool, shift: bool, anchorIndex: int, base: seq<int>)
    | Menu(index: int)

  function Next(s: Selected, step: Step): Selected {
    match step
    case Clear => NOTHING
    case SetSingle(index) => Single(index)
    case ClickAt(index, primary, shift) => Click(s, index, primary, shift)
    case SelectAll(count) => All(count)
    case RectAt(indexes, primary, shift, anchorIndex, base) => Rect(s, indexes, primary, shift, anchorIndex, base)
    case Menu(index) => MenuAt(s, index)
  }

  lemma StepKeeps(s: Selected, step: Step)
    requires Inv(s)
    ensures Inv(Next(s, step))
  {
    hide Click, Rect, All;
    match step
    case Clear =>
    case SetSingle(_) =>
    case ClickAt(index, primary, shift) => ClickKeeps(s, index, primary, shift);
    case SelectAll(count) => AllSelects(count);
    case RectAt(indexes, primary, shift, anchorIndex, base) => RectKeeps(s, indexes, primary, shift, anchorIndex, base);
    case Menu(_) =>
  }

  lemma ClickKeeps(s: Selected, index: int, primary: bool, shift: bool)
    requires Inv(s)
    ensures Inv(Click(s, index, primary, shift))
  {
    if index >= 0 {
      if shift {
        ShiftSelects(s, index, primary);
      } else {
        ClickSelects(s, index);
      }
    }
  }

  function After(s: Selected, steps: seq<Step>): Selected
    decreases |steps|
  {
    if steps == [] then s else After(Next(s, steps[0]), steps[1..])
  }

  /** In every run the list is strictly increasing and the current entry is one of it, or there is none. */
  lemma {:induction false} EveryRun(s: Selected, steps: seq<Step>)
    requires Inv(s)
    ensures var s' := After(s, steps);
            && Rising(s'.list) && (s'.current == -1 <==> s'.list == []) && (s'.list != [] ==> s'.current in s'.list)
            && (s'.anchor >= 0 <==> s'.list != [])
    decreases |steps|
  {
    if steps != [] {
      StepKeeps(s, steps[0]);
      EveryRun(Next(s, steps[0]), steps[1..]);
    }
  }
}
