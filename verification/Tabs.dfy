/**
 The tabs of a file manager window. Each tab shows a folder model: the window's own primary model, or one made
 by a factory for that tab and destroyed with it. A tab whose model could not be made shares the current one.
 */
module Tabs {
  import opened Prelude

  datatype Model = Model(id: nat)

  /** destroyed lists the models the factory was told to destroy, in order. */
  datatype Window = Window(
    primary: Model,
    trash: string,
    rows: seq<string>,
    refs: seq<Model>,
    owned: seq<Model>,
    active: int,
    shown: Model,
    sidebar: string,
    destroyed: seq<Model>)

  // ---------- what the operations compute ----------

  function OrHome(path: string): string {
    if path == "" then "~" else path
  }

  /** A drive is mounted instead of being shown as a folder, and nearby sharing has a sheet of its own. */
  predicate IsFolder(path: string) {
    !("__mount__:" <= path) && path != "__nearby__"
  }

  function Folder(w: Window, path: string): string {
    if path == "__network__" then "~" else if path == "__trash__" then w.trash else OrHome(path)
  }

  function OpenPath(w: Window, path: string): Window {
    if !IsFolder(path) then w
    else
      var p := Folder(w, path);
      w.(sidebar := p, rows := if 0 <= w.active < |w.rows| then w.rows[w.active := OrHome(p)] else w.rows)
  }

  function RefAt(w: Window, i: nat): Model {
    if i < |w.refs| then w.refs[i] else w.primary
  }

  function Switch(w: Window, i: int): Window {
    if !(0 <= i < |w.rows|) then w
    else OpenPath(w.(shown := RefAt(w, i), active := i), OrHome(w.rows[i]))
  }

  /** The tab that was active before a switch does not matter. */
  lemma SwitchForgets(w: Window, i: int)
    requires 0 <= i < |w.rows|
    ensures Switch(w.(active := i), i) == Switch(w, i)
  {
  }

  function Init(w: Window, path: string): Window {
    w.(destroyed := w.destroyed + w.owned, owned := [], rows := [OrHome(path)], refs := [w.primary], active := 0,
       shown := w.primary)
  }

  function Ready(w: Window): Window {
    if w.rows == [] then Init(w, w.sidebar) else w
  }

  /** One more row; its model is the made one, or the current one if none was made. */
  function Append(w: Window, row: string, made: Option<Model>): Window {
    match made
    case Some(m) => w.(rows := w.rows + [row], refs := w.refs + [m], owned := w.owned + [m])
    case None => w.(rows := w.rows + [row], refs := w.refs + [w.shown])
  }

  /** here is the path the current model stands at. */
  function AddTab(w: Window, path: string, here: string, made: Option<Model>, activate: bool): Window {
    var w1 := Append(Ready(w), OrHome(if path == "" then here else path), made);
    if activate then Switch(w1, |w1.rows| - 1) else w1
  }

  function OpenInNewTab(w: Window, path: string, made: Option<Model>): Window {
    var w := Ready(w);
    if path == "" then w
    else
      var w1 := Append(w, Folder(w, path), made);
      Switch(w1, |w1.rows| - 1)
  }

  function Without(models: seq<Model>, m: Model): (r: seq<Model>)
    ensures forall x :: x in r <==> x in models && x != m
    ensures m !in models ==> r == models
  {
    if models == [] then [] else
      (if models[0] == m then [] else [models[0]]) + Without(models[1..], m)
  }

  lemma WithoutFirst(models: seq<Model>, i: nat, m: Model)
    requires i < |models|
    ensures Without(models[i..], m) == (if models[i] == m then [] else [models[i]]) + Without(models[i + 1..], m)
  {
  }

  lemma WithoutEnd(models: seq<Model>, m: Model)
    ensures Without(models[|models|..], m) == []
  {
  }

  function DestroyOwned(w: Window, m: Model): Window {
    if m in w.owned then w.(owned := Without(w.owned, m), destroyed := w.destroyed + [m]) else w
  }

  function RemoveAt<T>(s: seq<T>, i: nat): seq<T> {
    if i < |s| then s[..i] + s[i + 1..] else s
  }

  /** Which tab is active once tab i of n is gone. */
  function ActiveAfter(active: int, i: nat, n: nat): int {
    if i < active then (if active - 1 < 0 then 0 else active - 1)
    else if i == active then (if i < n - 2 then i else n - 2)
    else (if active < n - 2 then active else n - 2)
  }

  function CloseTab(w: Window, i: int): Window {
    if !(0 <= i < |w.rows|) || |w.rows| <= 1 then w
    else
      var w1 := if i < |w.refs| && w.refs[i] != w.primary then DestroyOwned(w, w.refs[i]) else w;
      var next := ActiveAfter(w.active, i, |w.rows|);
      Switch(w1.(refs := RemoveAt(w.refs, i), rows := RemoveAt(w.rows, i), active := next), next)
  }

  // ---------- the object ----------

  class FileManagerTabs {
    const primary: Model
    const trash: string
    var rows: seq<string>
    var refs: seq<Model>
    var owned: seq<Model>
    var active: int
    var shown: Model
    var sidebar: string
    var destroyed: seq<Model>

    function View(): Window
      reads this
    {
      Window(primary, trash, rows, refs, owned, active, shown, sidebar, destroyed)
    }

    constructor (primary: Model, trash: string, sidebar: string)
      ensures View() == Window(primary, trash, [], [], [], 0, primary, sidebar, [])
      ensures Good(View())
    {
      this.primary, this.trash, this.sidebar, shown := primary, trash, sidebar, primary;
      rows, refs, owned, active, destroyed := [], [], [], 0, [];
    }

    method OpenFolder(path: string)
      modifies this`rows, this`sidebar
      ensures View() == OpenPath(old(View()), path)
      ensures old(Sound(View())) ==> Sound(View())
    {
      hide Sound, Good, Known;
      if Sound(View()) {
        OpenPathGood(View(), path);
      }
      if "__mount__:" <= path {
        return;
      }
      var p := if path == "" then "~" else path;
      if p == "__network__" {
        p := "~";
      }
      if p == "__nearby__" {
        return;
      }
      if p == "__trash__" {
        p := trash;
      }
      sidebar := p;
      if 0 <= active < |rows| {
        rows := rows[active := OrHome(p)];
      }
    }

    method SwitchToTab(index: int)
      modifies this`rows, this`sidebar, this`active, this`shown
      ensures View() == Switch(old(View()), index)
      ensures old(Sound(View())) ==> Sound(View())
    {
      hide Sound, NoneDangling, OwnTabs, Known;
      if Sound(View()) {
        SwitchGood(View(), index);
      }
      if !(0 <= index < |rows|) {
        return;
      }
      var next := if index < |refs| then refs[index] else primary;
      if shown != next {
        shown := next;
      }
      active := index;
      OpenFolder(OrHome(rows[index]));
    }

    method InitSingleTab(path: string)
      modifies this
      ensures View() == Init(old(View()), path)
      ensures |refs| == |rows| == 1
      ensures old(Sound(View())) ==> Sound(View())
    {
      hide Sound, Known;
      if Sound(View()) {
        InitKeeps(View(), path);
      }
      var i := 0;
      while i < |owned|
        invariant 0 <= i <= |owned|
        invariant View() == old(View()).(destroyed := old(destroyed) + owned[..i])
      {
        assert owned[..i + 1] == owned[..i] + [owned[i]];
        destroyed := destroyed + [owned[i]];
        i := i + 1;
      }
      assert owned[..i] == owned;
      owned := [];
      rows := [OrHome(path)];
      refs := [primary];
      active := 0;
      if shown != primary {
        shown := primary;
      }
    }

    method CreateOwned(made: Option<Model>) returns (model: Option<Model>)
      modifies this`owned
      ensures model == made
      ensures owned == old(owned) + (if made.Some? then [made.value] else [])
    {
      if made.Some? {
        owned := owned + [made.value];
      }
      model := made;
    }

    static method Filter(models: seq<Model>, model: Model) returns (next: seq<Model>, found: bool)
      ensures next == Without(models, model) && (found <==> model in models)
    {
      hide Without;
      next, found := [], false;
      var i := 0;
      assert models[0..] == models;
      while i < |models|
        invariant 0 <= i <= |models|
        invariant next + Without(models[i..], model) == Without(models, model)
        invariant found <==> model in models[..i]
      {
        WithoutFirst(models, i, model);
        assert models[..i + 1] == models[..i] + [models[i]];
        if models[i] == model {
          found := true;
        } else {
          next := next + [models[i]];
        }
        i := i + 1;
      }
      WithoutEnd(models, model);
      assert models[..i] == models;
    }

    method DestroyOwnedTabModel(model: Model)
      modifies this`owned, this`destroyed
      ensures View() == DestroyOwned(old(View()), model)
    {
      hide Without;
      var next, found := Filter(owned, model);
      if !found {
        return;
      }
      owned := next;
      destroyed := destroyed + [model];
    }

    method AppendTab(p: string, made: Option<Model>)
      modifies this`rows, this`refs, this`owned
      ensures View() == Append(old(View()), p, made)
      ensures |rows| == |old(rows)| + 1
    {
      var model := CreateOwned(made);
      rows := rows + [p];
      refs := refs + [if model.Some? then model.value else shown];
    }

    method Add(path: string, here: string, made: Option<Model>, activate: bool)
      modifies this
      ensures View() == AddTab(old(View()), path, here, made, activate)
      ensures old(Sound(View()) && Fresh(View(), made)) ==> Sound(View())
    {
      hide Switch, Init, Append, Sound, Good;
      if Sound(View()) && Fresh(View(), made) {
        AddKeeps(View(), Step.Add(path, here, made, activate));
      }
      if |rows| == 0 {
        InitSingleTab(sidebar);
      }
      AppendTab(OrHome(if path == "" then here else path), made);
      if activate {
        SwitchToTab(|rows| - 1);
      }
    }

    method InsertLast(p: string, made: Option<Model>)
      requires |refs| == |rows|
      modifies this`rows, this`refs, this`owned
      ensures View() == Append(old(View()), p, made)
      ensures |rows| == |old(rows)| + 1
    {
      var model := CreateOwned(made);
      var index := |rows|;
      rows := rows[..index] + [p] + rows[index..];
      refs := refs[..index] + [if model.Some? then model.value else shown] + refs[index..];
      assert rows == old(rows) + [p];
      assert refs == old(refs) + [if made.Some? then made.value else shown];
    }

    method OpenPathInNewTab(path: string, made: Option<Model>)
      requires |refs| == |rows|
      modifies this
      ensures View() == OpenInNewTab(old(View()), path, made)
      ensures old(Sound(View()) && Fresh(View(), made)) ==> Sound(View())
    {
      hide Switch, Init, Append, Sound, Good;
      if Sound(View()) && Fresh(View(), made) {
        AddKeeps(View(), OpenNew(path, made));
      }
      if |rows| == 0 {
        InitSingleTab(sidebar);
      }
      if path == "" {
        return;
      }
      var p := path;
      if p == "__network__" {
        p := "~";
      }
      if p == "__trash__" {
        p := trash;
      }
      assert p == Folder(View(), path);
      InsertLast(p, made);
      var w := View();
      active := |rows| - 1;
      SwitchForgets(w, active);
      SwitchToTab(active);
    }

    method RemoveTab(index: nat)
      requires index < |rows|
      modifies this
      ensures var w := old(View());
              View() == (if index < |w.refs| && w.refs[index] != w.primary then DestroyOwned(w, w.refs[index]) else w).(
                refs := RemoveAt(w.refs, index), rows := RemoveAt(w.rows, index))
    {
      hide Without;
      if index < |refs| && refs[index] != primary {
        DestroyOwnedTabModel(refs[index]);
      }
      if index < |refs| {
        refs := refs[..index] + refs[index + 1..];
      }
      rows := rows[..index] + rows[index + 1..];
    }

    method Close(index: int)
      modifies this
      ensures View() == CloseTab(old(View()), index)
      ensures old(Sound(View())) ==> Sound(View())
    {
      hide Switch, DestroyOwned, Sound, Good;
      if Sound(View()) {
        CloseGood(View(), index);
      }
      if !(0 <= index < |rows|) {
        return;
      }
      if |rows| <= 1 {
        return;
      }
      var before := active;
      RemoveTab(index);
      var w := View();
      var count := |rows|;
      if index < before {
        active := if before - 1 < 0 then 0 else before - 1;
      } else if index == before {
        active := if index < count - 1 then index else count - 1;
      } else {
        active := if before < count - 1 then before else count - 1;
      }
      assert View() == w.(active := ActiveAfter(before, index, count + 1));
      SwitchToTab(active);
    }
  }

  // ---------- what every run keeps ----------

  ghost predicate Once(models: seq<Model>) {
    forall i, j :: 0 <= i < j < |models| ==> models[i] != models[j]
  }

  /** Rows and models correspond, and the shown model is the active tab's. */
  ghost predicate Shape(w: Window) {
    if w.rows == [] then w.refs == [] && w.shown == w.primary
    else |w.refs| == |w.rows| && 0 <= w.active < |w.refs| && w.shown == w.refs[w.active]
  }

  /** Whatever the factory does: no model is destroyed twice, and each owned one is still in some tab. */
  ghost predicate Sound(w: Window) {
    && Shape(w)
    && Once(w.owned) && Once(w.destroyed)
    && w.primary !in w.owned && w.primary !in w.destroyed
    && (forall m :: m in w.owned ==> m in w.refs && m !in w.destroyed)
    && (forall m :: m in w.refs ==> m == w.primary || m in w.owned || m in w.destroyed)
  }

  ghost predicate NoneDangling(w: Window) {
    forall m :: m in w.refs ==> m !in w.destroyed
  }

  /** No two tabs share a model, except for the primary one. */
  ghost predicate OwnTabs(w: Window) {
    forall i, j :: 0 <= i < j < |w.refs| && w.refs[i] == w.refs[j] ==> w.refs[i] == w.primary
  }

  /** Owned models are then exactly the tabs' models other than the primary one. */
  ghost predicate Good(w: Window) {
    Sound(w) && NoneDangling(w) && OwnTabs(w)
  }

  ghost predicate Known(w: Window, m: Model) {
    m in w.owned || m in w.destroyed
  }

  /** The factory makes a new object each time. */
  ghost predicate Fresh(w: Window, made: Option<Model>) {
    made.Some? ==> made.value != w.primary && !Known(w, made.value)
  }

  /** Everything but paths and the choice of tab. */
  ghost predicate SameModels(w: Window, w': Window) {
    w'.primary == w.primary && w'.refs == w.refs && w'.owned == w.owned && w'.destroyed == w.destroyed
    && |w'.rows| == |w.rows|
  }

  lemma SwitchKeeps(w: Window, i: int)
    requires |w.refs| == |w.rows| && 0 <= i < |w.rows|
    ensures var w' := Switch(w, i);
            SameModels(w, w') && w'.active == i && w'.shown == w.refs[i]
  {
  }

  lemma SoundBySameModels(w: Window, w': Window)
    requires Sound(w) && SameModels(w, w') && Shape(w')
    ensures Sound(w') && (NoneDangling(w) <==> NoneDangling(w')) && (OwnTabs(w) <==> OwnTabs(w'))
    ensures forall m :: Known(w', m) <==> Known(w, m)
  {
  }

  lemma InitKeeps(w: Window, path: string)
    requires Sound(w)
    ensures Good(Init(w, path)) && forall m :: Known(Init(w, path), m) <==> Known(w, m)
  {
    var w' := Init(w, path);
    forall i, j | 0 <= i < j < |w'.destroyed| ensures w'.destroyed[i] != w'.destroyed[j] {
      var n := |w.destroyed|;
      if j >= n {
        assert w'.destroyed[j] == w.owned[j - n] && w.owned[j - n] in w.owned;
        if i >= n {
          assert w'.destroyed[i] == w.owned[i - n];
        } else {
          assert w'.destroyed[i] == w.destroyed[i] && w.destroyed[i] in w.destroyed;
        }
      }
    }
  }

  lemma ReadyKeeps(w: Window)
    requires Sound(w)
    ensures var w' := Ready(w);
            && Sound(w') && w'.rows != [] && w'.primary == w.primary
            && (NoneDangling(w) ==> NoneDangling(w')) && (OwnTabs(w) ==> OwnTabs(w'))
            && (forall m :: Known(w', m) <==> Known(w, m))
  {
    if w.rows == [] {
      InitKeeps(w, w.sidebar);
    }
  }

  lemma AppendKeeps(w: Window, row: string, made: Option<Model>)
    requires Sound(w) && w.rows != [] && Fresh(w, made)
    ensures var w' := Append(w, row, made);
            && Sound(w')
            && (forall m :: Known(w', m) <==> Known(w, m) || made == Some(m))
            && (NoneDangling(w) ==> NoneDangling(w'))
            && (OwnTabs(w) ==> (OwnTabs(w') <==> made.Some? || w.shown == w.primary))
  {
    var w' := Append(w, row, made);
    assert w'.refs == w.refs + [w'.refs[|w.refs|]];
    assert w'.refs[w.active] == w.shown;
    if made.Some? {
      assert forall m :: m in w'.owned <==> m in w.owned || m == made.value;
      assert made.value == w'.refs[|w.refs|];
    }
  }

  lemma {:induction false} WithoutOnce(models: seq<Model>, m: Model)
    requires Once(models)
    ensures Once(Without(models, m))
  {
    if models != [] {
      WithoutOnce(models[1..], m);
      var rest := Without(models[1..], m);
      assert forall x :: x in rest ==> x in models[1..];
      assert forall i :: 0 <= i < |rest| ==> rest[i] in rest;
    }
  }

  /** Removal from a list: who remains. */
  lemma RemoveAtMembers<T>(s: seq<T>, i: nat)
    requires i < |s|
    ensures forall x :: x in RemoveAt(s, i) <==> exists j :: 0 <= j < |s| && j != i && s[j] == x
    ensures |RemoveAt(s, i)| == |s| - 1
    ensures forall k :: 0 <= k < |s| - 1 ==> RemoveAt(s, i)[k] == s[if k < i then k else k + 1]
  {
  }

  /** The model of tab i is in another tab too. */
  ghost predicate Shared(w: Window, i: nat)
    requires i < |w.refs|
  {
    w.refs[i] != w.primary && exists j :: 0 <= j < |w.refs| && j != i && w.refs[j] == w.refs[i]
  }

  /** The state between removing a tab and switching to the next one. */
  function Removed(w: Window, i: nat): Window
    requires i < |w.rows|
  {
    var w1 := if i < |w.refs| && w.refs[i] != w.primary then DestroyOwned(w, w.refs[i]) else w;
    w1.(refs := RemoveAt(w.refs, i), rows := RemoveAt(w.rows, i), active := ActiveAfter(w.active, i, |w.rows|))
  }

  lemma RemovedModels(w: Window, i: nat)
    requires Sound(w) && i < |w.rows|
    ensures var w' := Removed(w, i);
            && w'.primary == w.primary
            && Once(w'.owned) && Once(w'.destroyed) && (forall m :: Known(w', m) <==> Known(w, m))
            && w.primary !in w'.owned && w.primary !in w'.destroyed
            && (forall m :: m in w'.owned <==> m in w.owned && m != w.refs[i])
            && (forall m :: m in w'.destroyed <==> m in w.destroyed || m == w.refs[i] != w.primary)
  {
    WithoutOnce(w.owned, w.refs[i]);
    assert w.refs[i] in w.refs;
  }

  /** The tab that is shown next is already chosen. */
  function Settled(w: Window, i: nat): Window
    requires |w.refs| == |w.rows| > 1 && i < |w.rows| && 0 <= w.active < |w.rows|
  {
    var w1 := Removed(w, i);
    w1.(shown := RefAt(w1, w1.active))
  }

  lemma SettledKeeps(w: Window, i: nat)
    requires Sound(w) && i < |w.rows| && |w.rows| > 1
    ensures var w' := Settled(w, i);
            && Sound(w') && |w'.rows| == |w.rows| - 1
            && (forall m :: Known(w', m) <==> Known(w, m))
            && (NoneDangling(w) ==> (NoneDangling(w') <==> !Shared(w, i)))
            && (OwnTabs(w) ==> OwnTabs(w'))
  {
    hide DestroyOwned;
    var w' := Settled(w, i);
    RemovedModels(w, i);
    assert w'.refs == RemoveAt(w.refs, i) && w'.rows == RemoveAt(w.rows, i);
    assert w'.primary == w.primary by {
      assert w'.primary == Removed(w, i).primary;
    }
    hide Removed, RemoveAt;
    RemoveAtMembers(w.refs, i);
    RemoveAtMembers(w.rows, i);
    forall m | m in w'.owned ensures m in w'.refs && m !in w'.destroyed {
      assert m in w.refs && m != w.refs[i];
      var j :| 0 <= j < |w.refs| && w.refs[j] == m;
    }
    assert forall m :: m in w'.refs ==> m in w.refs;
    assert w.refs[i] in w'.refs <==> exists j :: 0 <= j < |w.refs| && j != i && w.refs[j] == w.refs[i];
  }

  /** Closing a tab destroys its model; a tab left without a live model means that it was shared. */
  lemma CloseKeeps(w: Window, i: nat)
    requires Sound(w) && i < |w.rows| && |w.rows| > 1
    ensures var w' := CloseTab(w, i);
            && Sound(w') && |w'.rows| == |w.rows| - 1
            && (forall m :: Known(w', m) <==> Known(w, m))
            && (NoneDangling(w) ==> (NoneDangling(w') <==> !Shared(w, i)))
            && (OwnTabs(w) ==> OwnTabs(w'))
  {
    SettledKeeps(w, i);
    CloseSettles(w, i);
    var w1, w' := Settled(w, i), CloseTab(w, i);
    hide Settled, CloseTab;
    SoundBySameModels(w1, w');
    assert w'.refs == w1.refs && w'.destroyed == w1.destroyed;
  }

  lemma CloseSettles(w: Window, i: nat)
    requires Shape(w) && i < |w.rows| && |w.rows| > 1
    ensures var w1, w' := Settled(w, i), CloseTab(w, i);
            && SameModels(w1, w') && w'.active == w1.active && w'.shown == w1.shown
            && w' == OpenPath(w1, OrHome(w1.rows[w1.active]))
  {
  }

  // ---------- which path is shown ----------

  /** A path that stands for itself. */
  predicate IsPlain(path: string) {
    path != "" && IsFolder(path) && path != "__network__" && path != "__trash__"
  }

  /** Opening a folder writes it to the sidebar and to the active row, and to no other. */
  lemma OpenedFolder(w: Window, path: string)
    requires 0 <= w.active < |w.rows|
    ensures var w' := OpenPath(w, path);
            && |w'.rows| == |w.rows| && (forall k :: 0 <= k < |w.rows| && k != w.active ==> w'.rows[k] == w.rows[k])
            && w'.shown == w.shown && w'.active == w.active
            && (IsPlain(path) ==> w'.sidebar == path && w'.rows[w.active] == path)
            && (path in {"", "~", "__network__"} ==> w'.sidebar == "~" && w'.rows[w.active] == "~")
            && (path == "__trash__" && w.trash != "" ==> w'.sidebar == w.trash && w'.rows[w.active] == w.trash)
            && (path == "__nearby__" || "__mount__:" <= path ==> w' == w)
  {
    assert "__mount__:"[2] == 'm' && "__network__"[2] == 'n' && "__trash__"[2] == 't';
  }

  /** Switching shows the tab's model and its path. */
  lemma SwitchShows(w: Window, i: nat)
    requires |w.refs| == |w.rows| && i < |w.rows|
    ensures var w' := Switch(w, i);
            && w'.active == i && w'.shown == w.refs[i] && |w'.rows| == |w.rows|
            && (forall k :: 0 <= k < |w.rows| && k != i ==> w'.rows[k] == w.rows[k])
            && (IsPlain(w.rows[i]) ==> w'.rows[i] == w.rows[i] && w'.sidebar == w.rows[i])
  {
    hide OpenPath, IsFolder;
    OpenedFolder(w.(shown := RefAt(w, i), active := i), OrHome(w.rows[i]));
  }

  lemma NewTabShows(w: Window, row: string, made: Option<Model>)
    requires |w.refs| == |w.rows|
    ensures var w1, n := Append(w, row, made), |w.rows|;
            var w' := Switch(w1, |w1.rows| - 1);
            && |w'.rows| == n + 1 && w'.active == n && w'.rows[..n] == w.rows
            && w'.shown == (if made.Some? then made.value else w.shown)
            && (IsPlain(row) ==> w'.rows[n] == row && w'.sidebar == row)
            && w'.rows[n] == Reopened(w, row)
  {
    var w1, n := Append(w, row, made), |w.rows|;
    assert w1.rows == w.rows + [row] && w1.rows[n] == row;
    SwitchShows(w1, n);
    hide OpenPath, IsFolder;
    OpenPathRows(w1.(shown := RefAt(w1, n), active := n), OrHome(row));
  }

  /** A path opened in a new tab is shown in one more row at the end, with its own model if one was made. */
  lemma NewTabHasPath(w: Window, path: string, made: Option<Model>)
    requires Shape(w) && path != ""
    ensures var r, w' := Ready(w), OpenInNewTab(w, path, made);
            var n := |r.rows|;
            && |w'.rows| == n + 1 && w'.active == n && w'.rows[..n] == r.rows
            && w'.shown == (if made.Some? then made.value else r.shown)
            && (IsPlain(path) ==> w'.rows[n] == path && w'.sidebar == path)
            && (path == "__network__" ==> w'.rows[n] == "~")
            && (path == "__trash__" && IsPlain(w.trash) ==> w'.rows[n] == w.trash && w'.sidebar == w.trash)
  {
    hide Switch, OpenPath;
    var r := Ready(w);
    assert r.trash == w.trash && |r.refs| == |r.rows|;
    HomeIsPlain();
    NewTabShows(r, Folder(r, path), made);
  }

  lemma HomeIsPlain()
    ensures IsPlain("~")
  {
  }

  /** An added tab has the path asked for, or the current one; it is shown if asked, and else nothing that is shown changes. */
  lemma AddedTabHasPath(w: Window, path: string, here: string, made: Option<Model>, activate: bool)
    requires Shape(w) && IsPlain(if path == "" then here else path)
    ensures var r, w' := Ready(w), AddTab(w, path, here, made, activate);
            var n := |r.rows|;
            && |w'.rows| == n + 1 && w'.rows[..n] == r.rows && w'.rows[n] == (if path == "" then here else path)
            && if activate then
                 w'.active == n && w'.sidebar == w'.rows[n] && w'.shown == (if made.Some? then made.value else r.shown)
               else
                 w'.active == r.active && w'.sidebar == r.sidebar && w'.shown == r.shown
  {
    hide Switch, OpenPath;
    var r := Ready(w);
    assert |r.refs| == |r.rows|;
    NewTabShows(r, if path == "" then here else path, made);
  }

  /** A single tab: the primary model, at the path or at home, and all other models destroyed. */
  lemma SingleTab(w: Window, path: string)
    ensures var w' := Init(w, path);
            && w'.rows == [if path == "" then "~" else path] && w'.refs == [w.primary] && w'.shown == w.primary && w'.active == 0
            && w'.owned == [] && forall m :: m in w'.destroyed <==> m in w.destroyed || m in w.owned
  {
  }

  // ---------- which tab is shown ----------

  /** Closing another tab leaves the active one active: same model, and every row moves with its tab. */
  lemma CloseOther(w: Window, i: nat)
    requires Shape(w) && i < |w.rows| && |w.rows| > 1 && i != w.active
    ensures var w' := CloseTab(w, i);
            && w'.shown == w.shown && w'.active == (if i < w.active then w.active - 1 else w.active)
            && forall k :: 0 <= k < |w'.rows| && k != w'.active ==> w'.rows[k] == w.rows[if k < i then k else k + 1]
    ensures var w' := CloseTab(w, i);
            w'.rows[w'.active] == Reopened(w, w.rows[w.active])
  {
    var w1 := Settled(w, i);
    assert w1.rows == RemoveAt(w.rows, i) && w1.refs == RemoveAt(w.refs, i) && w1.trash == w.trash;
    assert w1.active == if i < w.active then w.active - 1 else w.active;
    RemoveAtMembers(w.refs, i);
    RemoveAtMembers(w.rows, i);
    assert w1.shown == w.shown;
    CloseSettles(w, i);
    hide Settled, CloseTab, RemoveAt;
    OpenPathRows(w1, OrHome(w1.rows[w1.active]));
  }

  /** What a row reads after its tab is shown again. */
  function Reopened(w: Window, row: string): string {
    if IsFolder(OrHome(row)) then OrHome(Folder(w, OrHome(row))) else row
  }

  lemma OpenPathRows(w: Window, path: string)
    requires 0 <= w.active < |w.rows|
    ensures var w' := OpenPath(w, path);
            w'.rows == if IsFolder(path) then w.rows[w.active := OrHome(Folder(w, path))] else w.rows
  {
  }

  /** Closing the active tab shows its right neighbour, or the left one at the end. */
  lemma CloseActive(w: Window, i: nat)
    requires Shape(w) && |w.rows| > 1 && i == w.active
    ensures var w' := CloseTab(w, i);
            w'.shown == w.refs[if i < |w.rows| - 1 then i + 1 else i - 1] && w'.active == (if i < |w.rows| - 1 then i else i - 1)
  {
  }

  /** After a tab is closed, the path of the tab that is then shown is the one shown, and all rows move with their tabs. */
  lemma CloseShowsPath(w: Window, i: nat)
    requires Shape(w) && i < |w.rows| && |w.rows| > 1
    ensures var w' := CloseTab(w, i);
            && |w'.rows| == |w.rows| - 1 && 0 <= w'.active < |w'.rows|
            && (forall k :: 0 <= k < |w'.rows| && k != w'.active ==> w'.rows[k] == w.rows[if k < i then k else k + 1])
            && var row := w.rows[if w'.active < i then w'.active else w'.active + 1];
               IsPlain(row) ==> w'.rows[w'.active] == row && w'.sidebar == row
  {
    var w1 := Settled(w, i);
    assert w1.rows == RemoveAt(w.rows, i);
    RemoveAtMembers(w.rows, i);
    CloseSettles(w, i);
    hide Settled, CloseTab, RemoveAt, OpenPath, IsFolder;
    OpenedFolder(w1, OrHome(w1.rows[w1.active]));
  }

  // ---------- runs ----------

  datatype Step =
    | Open(path: string)
    | SwitchTo(index: int)
    | InitTabs(path: string)
    | Add(path: string, here: string, made: Option<Model>, activate: bool)
    | OpenNew(path: string, made: Option<Model>)
    | Close(index: int)

  function Next(w: Window, s: Step): Window {
    match s
    case Open(path) => OpenPath(w, path)
    case SwitchTo(i) => Switch(w, i)
    case InitTabs(path) => Init(w, path)
    case Add(path, here, made, activate) => AddTab(w, path, here, made, activate)
    case OpenNew(path, made) => OpenInNewTab(w, path, made)
    case Close(i) => CloseTab(w, i)
  }

  /** What the factory was asked for in this step, and gave. */
  function Made(s: Step): Option<Model> {
    match s
    case Add(_, _, made, _) => made
    case OpenNew(path, made) => if path == "" then None else made
    case _ => None
  }

  /** The step asks the factory for a model and gets none while a tab's own model is shown. */
  predicate SharesModel(w: Window, s: Step) {
    (s.Add? || (s.OpenNew? && s.path != "")) && s.made.None? && Ready(w).shown != w.primary
  }

  lemma NewTabKeeps(w: Window, row: string, made: Option<Model>, activate: bool)
    requires Sound(w) && Fresh(w, made)
    ensures var w1 := Append(Ready(w), row, made);
            var w' := if activate then Switch(w1, |w1.rows| - 1) else w1;
            && Sound(w') && (forall m :: Known(w', m) <==> Known(w, m) || made == Some(m))
            && (NoneDangling(w) ==> NoneDangling(w'))
            && (Good(w) ==> (Good(w') <==> made.Some? || Ready(w).shown == w.primary))
  {
    hide Append, Switch, Sound, NoneDangling, OwnTabs, Known;
    ReadyKeeps(w);
    assert Fresh(Ready(w), made);
    var w0 := Ready(w);
    AppendKeeps(w0, row, made);
    var w1 := Append(w0, row, made);
    if activate {
      SwitchGood(w1, |w1.rows| - 1);
    }
  }

  lemma AddKeeps(w: Window, s: Step)
    requires Sound(w) && (s.Add? || s.OpenNew?) && Fresh(w, Made(s))
    ensures var w' := Next(w, s);
            Sound(w') && forall m :: Known(w', m) <==> Known(w, m) || Made(s) == Some(m)
    ensures Good(w) ==> (Good(Next(w, s)) <==> !SharesModel(w, s))
  {
    hide Append, Switch, Init, OpenPath, Folder;
    match s
    case Add(path, here, made, activate) =>
      NewTabKeeps(w, OrHome(if path == "" then here else path), made, activate);
    case OpenNew(path, made) =>
      ReadyKeeps(w);
      ReadyGood(w);
      if path != "" {
        NewTabKeeps(w, Folder(Ready(w), path), made, true);
      }
  }

  lemma SwitchGood(w: Window, i: int)
    requires Sound(w)
    ensures var w' := Switch(w, i);
            && Sound(w') && (NoneDangling(w) <==> NoneDangling(w')) && (OwnTabs(w) <==> OwnTabs(w'))
            && forall m :: Known(w', m) <==> Known(w, m)
  {
  }

  /** One step, whatever the factory does. */
  lemma StepKeeps(w: Window, s: Step)
    requires Sound(w) && Fresh(w, Made(s))
    ensures var w' := Next(w, s);
            Sound(w') && forall m :: Known(w', m) <==> Known(w, m) || Made(s) == Some(m)
    ensures Good(w) ==> (Good(Next(w, s)) <==> !SharesModel(w, s))
  {
    if s.Add? || s.OpenNew? {
      AddKeeps(w, s);
    } else {
      hide Switch, Init, OpenPath, CloseTab, Good, Sound;
      match s {
        case Open(path) => OpenPathGood(w, path);
        case SwitchTo(i) =>
          SwitchGood(w, i);
          assert Good(Switch(w, i)) <==> Good(w) by { GoodParts(w); GoodParts(Switch(w, i)); }
        case InitTabs(path) => InitKeeps(w, path);
        case Close(i) => CloseGood(w, i);
        case _ => assert false;
      }
    }
  }

  lemma GoodParts(w: Window)
    ensures Good(w) <==> Sound(w) && NoneDangling(w) && OwnTabs(w)
  {
  }

  lemma OpenPathGood(w: Window, path: string)
    requires Sound(w)
    ensures var w' := OpenPath(w, path);
            Sound(w') && (Good(w) ==> Good(w')) && forall m :: Known(w', m) <==> Known(w, m)
  {
  }

  lemma ReadyGood(w: Window)
    requires Sound(w)
    ensures Good(w) ==> Good(Ready(w))
  {
    ReadyKeeps(w);
  }

  /** In a good state no closing leaves a dangling tab. */
  lemma CloseGood(w: Window, i: int)
    requires Sound(w)
    ensures Sound(CloseTab(w, i)) && (Good(w) ==> Good(CloseTab(w, i)))
    ensures forall m :: Known(CloseTab(w, i), m) <==> Known(w, m)
  {
    if 0 <= i < |w.rows| && |w.rows| > 1 {
      CloseKeeps(w, i);
    }
  }

  function After(w: Window, steps: seq<Step>): Window
    decreases |steps|
  {
    if steps == [] then w else After(Next(w, steps[0]), steps[1..])
  }

  ghost predicate FreshRun(w: Window, steps: seq<Step>)
    decreases |steps|
  {
    steps == [] || (Fresh(w, Made(steps[0])) && FreshRun(Next(w, steps[0]), steps[1..]))
  }

  /** Some step of the run shares a tab's own model. */
  ghost predicate SharingRun(w: Window, steps: seq<Step>)
    decreases |steps|
  {
    steps != [] && (SharesModel(w, steps[0]) || SharingRun(Next(w, steps[0]), steps[1..]))
  }

  /** In every run, made models are owned or destroyed, none is lost and none is destroyed twice. */
  lemma {:induction false} EveryRun(w: Window, steps: seq<Step>)
    requires Sound(w) && FreshRun(w, steps)
    ensures var w' := After(w, steps);
            Sound(w') && forall m :: Known(w', m) <==> Known(w, m) || exists s :: s in steps && Made(s) == Some(m)
    decreases |steps|
  {
    if steps != [] {
      var w1, rest := Next(w, steps[0]), steps[1..];
      StepKeeps(w, steps[0]);
      EveryRun(w1, rest);
      assert steps == [steps[0]] + rest;
      forall m ensures (exists s :: s in steps && Made(s) == Some(m)) <==>
                       Made(steps[0]) == Some(m) || exists s :: s in rest && Made(s) == Some(m)
      {
        if Made(steps[0]) == Some(m) {
          assert steps[0] in steps;
        }
      }
    }
  }

  /** As long as no model is shared, each tab has a model of its own that is alive, and the owned ones are exactly those. */
  lemma {:induction false} EveryGoodRun(w: Window, steps: seq<Step>)
    requires Good(w) && FreshRun(w, steps) && !SharingRun(w, steps)
    ensures var w' := After(w, steps);
            && Good(w') && (forall m :: m in w'.owned <==> m in w'.refs && m != w'.primary)
            && w'.shown !in w'.destroyed
    decreases |steps|
  {
    if steps != [] {
      StepKeeps(w, steps[0]);
      EveryGoodRun(Next(w, steps[0]), steps[1..]);
    } else if w.rows != [] {
      assert w.refs[w.active] in w.refs;
    }
  }

  /** A new tab whose model cannot be made shares the active tab's; closing either one leaves the other on a destroyed model. */
  lemma SharingDangles(w: Window, m: Model, path: string)
    requires w == Window(w.primary, w.trash, ["~"], [w.primary], [], 0, w.primary, w.sidebar, [])
    requires m != w.primary && path != ""
    ensures var w' := After(w, [OpenNew(path, Some(m)), Add(path, "~", None, false), Close(2)]);
            w'.shown == m && m in w'.destroyed && |w'.rows| == 2
  {
    hide *;
    var s1, s2, s3: Step := OpenNew(path, Some(m)), Add(path, "~", None, false), Close(2);
    var w2 := Next(Next(w, s1), s2);
    SharedPair(w, m, path);
    ThreeSteps(w, s1, s2, s3);
    CloseOther(w2, 2);
    CloseLast(w2, m);
    assert Next(w2, s3) == CloseTab(w2, 2) by { CloseStep(w2, 2); }
  }

  lemma CloseStep(w: Window, i: int)
    ensures Next(w, Close(i)) == CloseTab(w, i)
  {
  }

  lemma ThreeSteps(w: Window, s1: Step, s2: Step, s3: Step)
    ensures After(w, [s1, s2, s3]) == Next(Next(Next(w, s1), s2), s3)
  {
    hide Next;
    assert [s1, s2, s3][1..] == [s2, s3] && [s2, s3][1..] == [s3] && [s3][1..] == [];
    var w2 := Next(Next(w, s1), s2);
    assert After(w2, [s3]) == After(Next(w2, s3), []);
    assert After(Next(w, s1), [s2, s3]) == After(w2, [s3]);
  }

  lemma SharedPair(w: Window, m: Model, path: string)
    requires w == Window(w.primary, w.trash, ["~"], [w.primary], [], 0, w.primary, w.sidebar, [])
    requires path != ""
    ensures var w2 := Next(Next(w, OpenNew(path, Some(m))), Add(path, "~", None, false));
            && Shape(w2) && w2.primary == w.primary && w2.destroyed == []
            && w2.refs == [w.primary, m, m] && w2.owned == [m] && w2.active == 1 && w2.shown == m && |w2.rows| == 3
  {
    var w0 := Append(w, Folder(w, path), Some(m));
    var w1 := Next(w, OpenNew(path, Some(m)));
    assert w1 == Switch(w0, 1);
    SwitchKeeps(w0, 1);
    hide Switch, OpenPath;
    assert w1.refs == [w.primary, m];
  }

  lemma CloseLast(w: Window, m: Model)
    requires Shape(w) && |w.rows| == 3 && w.active == 1 && w.refs == [w.primary, m, m] && m in w.owned && m != w.primary
    ensures var w' := CloseTab(w, 2);
            m in w'.destroyed && |w'.rows| == 2
  {
  }
}
