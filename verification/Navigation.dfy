/**
 Back and forward in the file manager. Going back changes the model's path like any visit does; a flag tells
 the path-changed handler not to record that change. The flag is cleared only by that handler, so all is well
 only if each step back or forward really changes the path.
 */
module Navigation {

  const LIMIT: nat := 200

  /** resolve is what the folder model makes of a path before it compares it with its current one. */
  datatype Navigator = Navigator(back: seq<string>, forward: seq<string>, last: string, internal: bool, current: string)

  ghost predicate Resolves(resolve: string -> string) {
    forall p :: resolve(p) != "" && resolve(resolve(p)) == resolve(p)
  }

  // ---------- what the handlers compute ----------

  /** The path-changed handler. */
  function Record(n: Navigator, path: string): Navigator {
    if path == "" then n
    else if n.internal then n.(internal := false, last := path)
    else if n.last != "" && n.last != path then
      var back := n.back + [n.last];
      n.(back := if |back| > LIMIT then back[1..] else back, forward := [], last := path)
    else n.(last := path)
  }

  /** Assigning the model's path: the handler runs only if the resolved path is a different one. */
  function Assign(resolve: string -> string, n: Navigator, path: string): Navigator {
    var p := resolve(path);
    if p == n.current then n else Record(n.(current := p), if p == "" then "~" else p)
  }

  function GoBack(resolve: string -> string, n: Navigator): Navigator {
    if n.back == [] then n else
      var target := n.back[|n.back| - 1];
      var n := n.(back := n.back[..|n.back| - 1]);
      if target == "" then n else
        Assign(resolve, n.(forward := n.forward + (if n.current == "" then [] else [n.current]), internal := true), target)
  }

  function GoForward(resolve: string -> string, n: Navigator): Navigator {
    if n.forward == [] then n else
      var target := n.forward[|n.forward| - 1];
      var n := n.(forward := n.forward[..|n.forward| - 1]);
      if target == "" then n else
        Assign(resolve, n.(back := n.back + (if n.current == "" then [] else [n.current]), internal := true), target)
  }

  /** Another tab's model takes over, standing at a path of its own; no path has changed. */
  function SwitchModel(n: Navigator, path: string): Navigator {
    n.(current := path)
  }

  // ---------- the object ----------

  class FileManagerNavigator {
    const resolve: string -> string
    var back: seq<string>
    var forward: seq<string>
    var last: string
    var internal: bool
    var current: string

    function View(): Navigator
      reads this
    {
      Navigator(back, forward, last, internal, current)
    }

    constructor (resolve: string -> string, path: string)
      ensures this.resolve == resolve && View() == Navigator([], [], resolve(path), false, resolve(path))
      ensures Resolves(resolve) ==> Inv(resolve, View())
    {
      this.resolve := resolve;
      back, forward, last, internal, current := [], [], resolve(path), false, resolve(path);
    }

    method RecordNavigationPath(path: string)
      modifies this
      ensures View() == Record(old(View()), path)
    {
      if path == "" {
        return;
      }
      if internal {
        internal := false;
        last := path;
        return;
      }
      if last != "" && last != path {
        var stack := back + [last];
        if |stack| > LIMIT {
          stack := stack[1..];
        }
        back := stack;
        forward := [];
      }
      last := path;
    }

    method SetCurrentPath(path: string)
      modifies this
      ensures View() == Assign(resolve, old(View()), path)
      ensures Resolves(resolve) && old(Inv(resolve, View())) ==> Inv(resolve, View())
    {
      hide Inv;
      if Resolves(resolve) && Inv(resolve, View()) {
        VisitAppends(resolve, View(), path);
      }
      var resolved := resolve(path);
      if resolved == current {
        return;
      }
      current := resolved;
      RecordNavigationPath(if resolved == "" then "~" else resolved);
    }

    method NavigateBack()
      modifies this
      ensures View() == GoBack(resolve, old(View()))
      ensures Resolves(resolve) && old(Inv(resolve, View())) ==> Inv(resolve, View())
    {
      hide Inv;
      if Resolves(resolve) && Inv(resolve, View()) {
        BackKeepsInv(resolve, View());
      }
      if |back| == 0 {
        return;
      }
      var target := back[|back| - 1];
      back := back[..|back| - 1];
      if target == "" {
        return;
      }
      if current != "" {
        forward := forward + [current];
      }
      assert forward == old(forward) + (if current == "" then [] else [current]);
      internal := true;
      SetCurrentPath(target);
    }

    method NavigateForward()
      modifies this
      ensures View() == GoForward(resolve, old(View()))
      ensures Resolves(resolve) && old(Inv(resolve, View())) ==> Inv(resolve, View())
    {
      hide Inv;
      if Resolves(resolve) && Inv(resolve, View()) {
        ForwardKeepsInv(resolve, View());
      }
      if |forward| == 0 {
        return;
      }
      var target := forward[|forward| - 1];
      forward := forward[..|forward| - 1];
      if target == "" {
        return;
      }
      if current != "" {
        back := back + [current];
      }
      assert back == old(back) + (if current == "" then [] else [current]);
      internal := true;
      SetCurrentPath(target);
    }
  }

  // ---------- the timeline ----------

  function Reverse(s: seq<string>): (r: seq<string>)
    ensures |r| == |s| && forall i :: 0 <= i < |s| ==> r[i] == s[|s| - 1 - i]
  {
    seq(|s|, i requires 0 <= i < |s| => s[|s| - 1 - i])
  }

  /** All places in the order visited; the cursor stands at |back|. */
  function Timeline(n: Navigator): seq<string> {
    n.back + [n.current] + Reverse(n.forward)
  }

  predicate Settled(resolve: string -> string, p: string) {
    p != "" && resolve(p) == p
  }

  predicate NeighboursDiffer(s: seq<string>) {
    forall i :: 0 < i < |s| ==> s[i - 1] != s[i]
  }

  predicate Inv(resolve: string -> string, n: Navigator) {
    && !n.internal && n.last == n.current
    && |n.back| + |n.forward| <= LIMIT
    && NeighboursDiffer(Timeline(n))
    && forall i :: 0 <= i < |Timeline(n)| ==> Settled(resolve, Timeline(n)[i])
  }

  /** A visit cuts the timeline after the cursor, appends the new place, and forgets the oldest place beyond the limit. */
  lemma VisitAppends(resolve: string -> string, n: Navigator, path: string)
    requires Resolves(resolve) && Inv(resolve, n)
    ensures Inv(resolve, Assign(resolve, n, path))
    ensures var n' := Assign(resolve, n, path);
            if resolve(path) == n.current then n' == n
            else
              var past := n.back + [n.current];
              && Timeline(n') == (if |past| > LIMIT then past[1..] else past) + [resolve(path)]
              && n'.current == resolve(path) && n'.forward == []
  {
    var n' := Assign(resolve, n, path);
    var t := Timeline(n);
    if resolve(path) != n.current {
      assert t[|n.back|] == n.current && Settled(resolve, t[|n.back|]);
      var past := n.back + [n.current];
      var skip := if |past| > LIMIT then 1 else 0;
      assert Reverse([]) == [];
      assert n' == Navigator(past[skip..], [], resolve(path), false, resolve(path));
      assert Timeline(n') == past[skip..] + [resolve(path)];
      assert forall i :: 0 <= i < |past| ==> past[i] == t[i];
      assert Settled(resolve, resolve(path));
    }
  }

  /** Going back moves the cursor one place and leaves the timeline as it is; the path does change. */
  lemma BackMovesCursor(resolve: string -> string, n: Navigator)
    requires Resolves(resolve) && Inv(resolve, n) && n.back != []
    ensures var n' := GoBack(resolve, n);
            && Inv(resolve, n') && Timeline(n') == Timeline(n)
            && |n'.back| == |n.back| - 1 && n'.current != n.current
            && GoForward(resolve, n') == n
  {
    var k := |n.back| - 1;
    var target, t := n.back[k], Timeline(n);
    assert t[k] == target && t[k + 1] == n.current;
    assert Settled(resolve, t[k]) && Settled(resolve, t[k + 1]);
    var n' := GoBack(resolve, n);
    assert n' == Navigator(n.back[..k], n.forward + [n.current], target, false, target);
    assert Reverse(n.forward + [n.current]) == [n.current] + Reverse(n.forward);
    assert Timeline(n') == t;
    assert (n.forward + [n.current])[..|n.forward|] == n.forward;
    assert n.back[..k] + [target] == n.back;
  }

  lemma ForwardMovesCursor(resolve: string -> string, n: Navigator)
    requires Resolves(resolve) && Inv(resolve, n) && n.forward != []
    ensures var n' := GoForward(resolve, n);
            && Inv(resolve, n') && Timeline(n') == Timeline(n)
            && |n'.back| == |n.back| + 1 && n'.current != n.current
            && GoBack(resolve, n') == n
  {
    var k := |n.forward| - 1;
    var target, t := n.forward[k], Timeline(n);
    assert t[|n.back|] == n.current && t[|n.back| + 1] == target;
    assert Settled(resolve, t[|n.back|]) && Settled(resolve, t[|n.back| + 1]);
    var n' := GoForward(resolve, n);
    assert n' == Navigator(n.back + [n.current], n.forward[..k], target, false, target);
    assert n.forward == n.forward[..k] + [target];
    assert Reverse(n.forward) == [target] + Reverse(n.forward[..k]);
    assert Timeline(n') == t;
    assert (n.back + [n.current])[..|n.back|] == n.back;
  }

  lemma BackKeepsInv(resolve: string -> string, n: Navigator)
    requires Resolves(resolve) && Inv(resolve, n)
    ensures Inv(resolve, GoBack(resolve, n))
  {
    if n.back != [] {
      BackMovesCursor(resolve, n);
    }
  }

  lemma ForwardKeepsInv(resolve: string -> string, n: Navigator)
    requires Resolves(resolve) && Inv(resolve, n)
    ensures Inv(resolve, GoForward(resolve, n))
  {
    if n.forward != [] {
      ForwardMovesCursor(resolve, n);
    }
  }

  // ---------- runs ----------

  datatype Step = Visit(path: string) | Back | Forward | Switch(path: string)

  function Next(resolve: string -> string, n: Navigator, s: Step): Navigator {
    match s
    case Visit(path) => Assign(resolve, n, path)
    case Back => GoBack(resolve, n)
    case Forward => GoForward(resolve, n)
    case Switch(path) => SwitchModel(n, path)
  }

  function After(resolve: string -> string, n: Navigator, steps: seq<Step>): Navigator
    decreases |steps|
  {
    if steps == [] then n else After(resolve, Next(resolve, n, steps[0]), steps[1..])
  }

  /** In every run with one model: at most 200 places are kept, neighbours differ, and the flag is never left set. */
  lemma {:induction false} EveryRun(resolve: string -> string, n: Navigator, steps: seq<Step>)
    requires Resolves(resolve) && Inv(resolve, n)
    requires forall s :: s in steps ==> !s.Switch?
    ensures Inv(resolve, After(resolve, n, steps))
    decreases |steps|
  {
    if steps != [] {
      assert steps[0] in steps;
      match steps[0] {
        case Visit(path) => VisitAppends(resolve, n, path);
        case Back => BackKeepsInv(resolve, n);
        case Forward => ForwardKeepsInv(resolve, n);
      }
      EveryRun(resolve, Next(resolve, n, steps[0]), steps[1..]);
    }
  }

  /** In general, going back or forward leaves the flag set exactly when the place to go to is the current one. */
  lemma FlagLeftSetExactly(resolve: string -> string, n: Navigator)
    requires !n.internal
    ensures n.back != [] && Settled(resolve, n.back[|n.back| - 1]) ==>
              (GoBack(resolve, n).internal <==> n.back[|n.back| - 1] == n.current)
    ensures n.forward != [] && Settled(resolve, n.forward[|n.forward| - 1]) ==>
              (GoForward(resolve, n).internal <==> n.forward[|n.forward| - 1] == n.current)
  {
  }

  /** With the flag set, the next visit is not recorded. */
  lemma FlagSwallowsVisit(resolve: string -> string, n: Navigator, path: string)
    requires n.internal && resolve(path) != n.current && resolve(path) != ""
    ensures var n' := Assign(resolve, n, path);
            n'.back == n.back && n'.forward == n.forward && !n'.internal && n'.current == resolve(path)
  {
  }

  /** Two tabs bring that about: visit b in a second tab, return to the first one at a, go back. */
  lemma TabSwitchLeavesFlagSet(resolve: string -> string, a: string, b: string, home: string)
    requires Settled(resolve, a) && Settled(resolve, b) && a != b && home != b
    ensures var n := Navigator([], [], a, false, a);
            Inv(resolve, n) && After(resolve, n, [Switch(home), Visit(b), Switch(a), Back]).internal
  {
    var n := Navigator([], [], a, false, a);
    assert Reverse([]) == [];
    assert Timeline(n) == [a];
    var s1, s2, s3, s4: Step := Switch(home), Visit(b), Switch(a), Back;
    assert [s1, s2, s3, s4][1..] == [s2, s3, s4] && [s2, s3, s4][1..] == [s3, s4] && [s3, s4][1..] == [s4] && [s4][1..] == [];
    var n1 := Next(resolve, n, s1);
    var n2 := Next(resolve, n1, s2);
    assert n2 == Navigator([a], [], b, false, b);
    var n3 := Next(resolve, n2, s3);
    var n4 := Next(resolve, n3, s4);
    assert n4.internal;
    assert After(resolve, n3, [s4]) == After(resolve, n4, []) == n4;
    assert After(resolve, n2, [s3, s4]) == n4;
    assert After(resolve, n1, [s2, s3, s4]) == n4;
  }
}
