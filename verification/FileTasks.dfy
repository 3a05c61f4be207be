/**
 What one worker of the file batch engine does to the file system: recursive copy, recursive removal, and
 a move that falls back to copying and removing. Every primitive may fail at any moment, so each contract
 says what is on the disk afterwards whichever step failed.
 */
module FileTasks {
  import opened Prelude

  type Name = string
  type Path = seq<Name>

  datatype Node = File(content: seq<bv8>) | Folder

  type Disk = map<Path, Node>

  function Lookup(disk: Disk, p: Path): Option<Node> {
    if p in disk then Some(disk[p]) else None
  }

  /** Everything but the root lies in a folder. */
  ghost predicate Rooted(disk: Disk) {
    && Lookup(disk, []) == Some(Folder)
    && forall p :: p in disk && p != [] ==> Lookup(disk, p[..|p| - 1]) == Some(Folder)
  }

  predicate Apart(p: Path, q: Path) {
    !(p <= q) && !(q <= p)
  }

  function Below(disk: Disk, p: Path): set<Path> {
    set q | q in disk && p <= q
  }

  function Size(disk: Disk, p: Path): nat {
    if p in disk && disk[p].File? then |disk[p].content| else 0
  }

  ghost function SumOfSizes(disk: Disk, s: set<Path>): nat {
    if s == {} then 0 else
      var p :| p in s;
      Size(disk, p) + SumOfSizes(disk, s - {p})
  }

  /** The recursive size estimate: the bytes of all files at or below p. */
  ghost function Estimate(disk: Disk, p: Path): nat {
    SumOfSizes(disk, Below(disk, p))
  }

  /** The disk after copying src over dst: src's tree wins below dst, the folders leading to dst exist, the rest is as before. */
  function Overlaid(before: Disk, src: Path, dst: Path, p: Path): Option<Node> {
    if dst <= p && src + p[|dst|..] in before then Lookup(before, src + p[|dst|..])
    else if p < dst then Some(Folder)
    else Lookup(before, p)
  }

  ghost predicate IsOverlay(before: Disk, after: Disk, src: Path, dst: Path) {
    forall p :: Lookup(after, p) == Overlaid(before, src, dst, p)
  }

  /** Nothing outside dst changed, except that missing folders leading to dst may have been made. */
  ghost predicate OnlyTouches(before: Disk, after: Disk, dst: Path) {
    forall p :: !(dst <= p) ==>
      || Lookup(after, p) == Lookup(before, p)
      || (p < dst && Lookup(before, p) == None && Lookup(after, p) == Some(Folder))
  }

  ghost predicate SameBelow(before: Disk, after: Disk, src: Path) {
    forall p :: src <= p ==> Lookup(after, p) == Lookup(before, p)
  }

  // ---------- sums ----------

  lemma {:induction false} SumPick(disk: Disk, s: set<Path>, q: Path)
    requires q in s
    ensures SumOfSizes(disk, s) == Size(disk, q) + SumOfSizes(disk, s - {q})
  {
    var p :| p in s && SumOfSizes(disk, s) == Size(disk, p) + SumOfSizes(disk, s - {p});
    if p != q {
      SumPick(disk, s - {p}, q);
      SumPick(disk, s - {q}, p);
      assert s - {p} - {q} == s - {q} - {p};
    }
  }

  lemma {:induction false} SumOfUnion(disk: Disk, s: set<Path>, t: set<Path>)
    requires s !! t
    ensures SumOfSizes(disk, s + t) == SumOfSizes(disk, s) + SumOfSizes(disk, t)
    decreases s
  {
    if s == {} {
      assert s + t == t;
    } else {
      var p :| p in s;
      SumPick(disk, s, p);
      SumPick(disk, s + t, p);
      SumOfUnion(disk, s - {p}, t);
      assert s + t - {p} == s - {p} + t;
    }
  }

  lemma {:induction false} SumDependsOn(disk: Disk, disk': Disk, s: set<Path>)
    requires forall p :: p in s ==> Lookup(disk, p) == Lookup(disk', p)
    ensures SumOfSizes(disk, s) == SumOfSizes(disk', s)
    decreases s
  {
    if s != {} {
      var p :| p in s;
      SumPick(disk, s, p);
      SumPick(disk', s, p);
      SumDependsOn(disk, disk', s - {p});
      assert Lookup(disk, p) == Lookup(disk', p);
    }
  }

  lemma EstimateDependsOn(disk: Disk, disk': Disk, p: Path)
    requires SameBelow(disk, disk', p)
    ensures Below(disk, p) == Below(disk', p) && Estimate(disk, p) == Estimate(disk', p)
  {
    forall q
      ensures q in Below(disk, p) <==> q in Below(disk', p)
    {
      if p <= q {
        assert Lookup(disk, q) == Lookup(disk', q);
      }
    }
    SumDependsOn(disk, disk', Below(disk, p));
  }

  /** The names of the entries of folder p, each once. */
  ghost predicate Lists(disk: Disk, p: Path, names: seq<Name>) {
    && (forall n :: p + [n] in disk <==> n in names)
    && (forall i, j :: 0 <= i < j < |names| ==> names[i] != names[j])
  }

  /** The part of the tree below p in the children named so far. */
  function BelowNamed(disk: Disk, p: Path, names: seq<Name>): set<Path> {
    set q | q in disk && p < q && q[|p|] in names
  }

  lemma BelowStep(disk: Disk, p: Path, names: seq<Name>, i: nat)
    requires i < |names|
    requires forall j :: 0 <= j < i ==> names[j] != names[i]
    ensures SumOfSizes(disk, BelowNamed(disk, p, names[..i + 1]))
         == SumOfSizes(disk, BelowNamed(disk, p, names[..i])) + Estimate(disk, p + [names[i]])
  {
    var child := p + [names[i]];
    assert names[..i + 1] == names[..i] + [names[i]];
    forall q
      ensures q in BelowNamed(disk, p, names[..i + 1]) <==> q in BelowNamed(disk, p, names[..i]) + Below(disk, child)
    {
      if p < q && q[|p|] == names[i] {
        assert q[..|p| + 1] == child;
      }
    }
    assert BelowNamed(disk, p, names[..i + 1]) == BelowNamed(disk, p, names[..i]) + Below(disk, child);
    SumOfUnion(disk, BelowNamed(disk, p, names[..i]), Below(disk, child));
  }

  lemma BelowIsNamed(disk: Disk, p: Path, names: seq<Name>, q: Path)
    requires Rooted(disk) && Lists(disk, p, names)
    requires q in disk && p < q
    ensures q[|p|] in names
  {
    AncestorsExist(disk, q, |p| + 1);
    assert q[..|p| + 1] == p + [q[|p|]];
  }

  lemma BelowFolder(disk: Disk, p: Path, names: seq<Name>)
    requires Rooted(disk) && Lookup(disk, p) == Some(Folder)
    requires Lists(disk, p, names)
    ensures Below(disk, p) == {p} + BelowNamed(disk, p, names)
    ensures Estimate(disk, p) == SumOfSizes(disk, BelowNamed(disk, p, names))
  {
    forall q | q in Below(disk, p) && q != p
      ensures q in BelowNamed(disk, p, names)
    {
      BelowIsNamed(disk, p, names, q);
    }
    assert Below(disk, p) == {p} + BelowNamed(disk, p, names);
    SumPick(disk, Below(disk, p), p);
    assert Below(disk, p) - {p} == BelowNamed(disk, p, names);
  }

  lemma EstimateOfFile(disk: Disk, p: Path)
    requires Rooted(disk) && p in disk && disk[p].File?
    ensures Below(disk, p) == {p} && Estimate(disk, p) == |disk[p].content|
  {
    forall q | q in Below(disk, p)
      ensures q == p
    {
      assert q[..|p|] == p;
      if |q| > |p| {
        AncestorsAreFolders(disk, q, |p|);
        assert false;
      }
    }
    SumPick(disk, {p}, p);
    assert {p} - {p} == {};
  }

  lemma ParentIsFolder(disk: Disk, p: Path)
    requires Rooted(disk) && p in disk && p != []
    ensures Lookup(disk, p[..|p| - 1]) == Some(Folder)
  {
  }

  lemma {:induction false} AncestorsAreFolders(disk: Disk, p: Path, k: nat)
    requires Rooted(disk) && p in disk && k < |p|
    ensures Lookup(disk, p[..k]) == Some(Folder)
    decreases |p|
  {
    hide Rooted;
    var parent := p[..|p| - 1];
    ParentIsFolder(disk, p);
    if k < |parent| {
      AncestorsAreFolders(disk, parent, k);
      assert parent[..k] == p[..k];
    }
  }

  lemma AncestorsExist(disk: Disk, p: Path, k: nat)
    requires Rooted(disk) && p in disk && k <= |p|
    ensures p[..k] in disk
  {
    if k < |p| {
      AncestorsAreFolders(disk, p, k);
    } else {
      assert p[..k] == p;
    }
  }

  lemma ChildIsSmaller(disk: Disk, p: Path, n: Name)
    requires p in disk
    ensures |Below(disk, p + [n])| < |Below(disk, p)|
  {
    var child := p + [n];
    forall q | q in Below(disk, child)
      ensures q in Below(disk, p)
    {
      assert q[..|p|] == child[..|p|] == p;
    }
    assert p in Below(disk, p) - Below(disk, child);
    StrictSubset(Below(disk, child), Below(disk, p), p);
  }

  lemma StrictSubset(s: set<Path>, t: set<Path>, p: Path)
    requires s <= t && p in t && p !in s
    ensures |s| < |t|
  {
    assert |t| == |s| + |t - s| by { assert t == s + (t - s); }
    assert t - s != {};
  }

  lemma ApartBelow(src: Path, dst: Path, p: Path)
    requires Apart(src, dst) && src <= p
    ensures Apart(p, dst)
  {
  }

  lemma ApartIsBelowRoot(src: Path, dst: Path)
    requires Apart(src, dst)
    ensures src != [] && dst != []
  {
  }

  lemma ApartChildren(src: Path, dst: Path, n: Name)
    requires Apart(src, dst)
    ensures Apart(src + [n], dst + [n])
  {
    ApartBelow(src, dst, src + [n]);
    ApartBelow(dst, src + [n], dst + [n]);
  }

  lemma NamedPartIsBounded(disk: Disk, p: Path, names: seq<Name>, i: nat)
    requires Rooted(disk) && Lookup(disk, p) == Some(Folder) && Lists(disk, p, names) && i <= |names|
    ensures SumOfSizes(disk, BelowNamed(disk, p, names[..i])) <= Estimate(disk, p)
  {
    var part := BelowNamed(disk, p, names[..i]);
    var all := BelowNamed(disk, p, names);
    BelowFolder(disk, p, names);
    assert part <= all;
    SumOfUnion(disk, part, all - part);
    assert part + (all - part) == all;
  }

  // ---------- composing changes ----------

  lemma TouchesTwice(a: Disk, b: Disk, c: Disk, dst: Path, inner: Path)
    requires OnlyTouches(a, b, dst) && OnlyTouches(b, c, inner)
    requires dst <= inner && |inner| <= |dst| + 1
    ensures OnlyTouches(a, c, dst)
  {
  }

  lemma TouchedApart(before: Disk, after: Disk, src: Path, dst: Path)
    requires OnlyTouches(before, after, dst) && Apart(src, dst)
    ensures SameBelow(before, after, src)
  {
  }

  /** src's folder over dst, as far as the children named so far. */
  function PartlyOverlaid(before: Disk, src: Path, dst: Path, done: seq<Name>, p: Path): Option<Node> {
    if dst <= p && (p == dst || p[|dst|] in done) && src + p[|dst|..] in before then Lookup(before, src + p[|dst|..])
    else if p < dst then Some(Folder)
    else Lookup(before, p)
  }

  ghost predicate IsPartlyOverlaid(before: Disk, after: Disk, src: Path, dst: Path, done: seq<Name>) {
    forall p :: Lookup(after, p) == PartlyOverlaid(before, src, dst, done, p)
  }

  lemma OverlayOneMore(before: Disk, mid: Disk, after: Disk, src: Path, dst: Path, done: seq<Name>, n: Name)
    requires IsPartlyOverlaid(before, mid, src, dst, done) && IsOverlay(mid, after, src + [n], dst + [n])
    requires Lookup(before, src) == Some(Folder) && n !in done && SameBelow(before, mid, src)
    ensures IsPartlyOverlaid(before, after, src, dst, done + [n])
  {
    hide Overlaid, PartlyOverlaid, SameBelow;
    forall p
      ensures Lookup(after, p) == PartlyOverlaid(before, src, dst, done + [n], p)
    {
      assert Lookup(after, p) == Overlaid(mid, src + [n], dst + [n], p);
      assert Lookup(mid, p) == PartlyOverlaid(before, src, dst, done, p);
      if dst + [n] <= p {
        OverlayInside(before, mid, after, src, dst, done, n, p);
      } else if p < dst + [n] {
        OverlayAbove(before, mid, src, dst, done, n, p);
      } else {
        OverlayBeside(before, mid, src, dst, done, n, p);
      }
    }
  }

  lemma OverlayAbove(before: Disk, mid: Disk, src: Path, dst: Path, done: seq<Name>, n: Name, p: Path)
    requires p < dst + [n] && Lookup(before, src) == Some(Folder)
    ensures Overlaid(mid, src + [n], dst + [n], p) == PartlyOverlaid(before, src, dst, done + [n], p)
  {
    assert p == (dst + [n])[..|p|] == dst[..|p|];
    if p == dst {
      assert src + p[|dst|..] == src;
    }
  }

  lemma OverlayBeside(before: Disk, mid: Disk, src: Path, dst: Path, done: seq<Name>, n: Name, p: Path)
    requires !(dst + [n] <= p) && !(p < dst + [n]) && Lookup(mid, p) == PartlyOverlaid(before, src, dst, done, p)
    ensures Overlaid(mid, src + [n], dst + [n], p) == PartlyOverlaid(before, src, dst, done + [n], p)
  {
    if dst < p {
      assert p[..|dst| + 1] == dst + [p[|dst|]];
    }
  }

  lemma OverlayInside(before: Disk, mid: Disk, after: Disk, src: Path, dst: Path, done: seq<Name>, n: Name, p: Path)
    requires dst + [n] <= p && n !in done && SameBelow(before, mid, src)
    requires Lookup(after, p) == Overlaid(mid, src + [n], dst + [n], p)
    requires Lookup(mid, p) == PartlyOverlaid(before, src, dst, done, p)
    ensures Lookup(after, p) == PartlyOverlaid(before, src, dst, done + [n], p)
  {
    var child := dst + [n];
    assert p[..|dst|] == child[..|dst|] == dst;
    assert p[|dst|] == n;
    assert p[|dst|..] == [n] + p[|child|..];
    assert src + p[|dst|..] == src + [n] + p[|child|..];
    assert Lookup(mid, src + p[|dst|..]) == Lookup(before, src + p[|dst|..]);
  }

  lemma OverlayComplete(before: Disk, after: Disk, src: Path, dst: Path, names: seq<Name>)
    requires Rooted(before) && Lists(before, src, names)
    requires IsPartlyOverlaid(before, after, src, dst, names)
    ensures IsOverlay(before, after, src, dst)
  {
    forall p
      ensures Lookup(after, p) == Overlaid(before, src, dst, p)
    {
      assert Lookup(after, p) == PartlyOverlaid(before, src, dst, names, p);
      if dst < p && src + p[|dst|..] in before {
        var q := src + p[|dst|..];
        BelowIsNamed(before, src, names, q);
        assert q[|src|] == p[|dst|];
      }
    }
  }

  // ---------- copying one file without overwriting ----------

  predicate CanCopy(disk: Disk, src: Path, dst: Path) {
    src in disk && disk[src].File? && dst != [] && Lookup(disk, dst[..|dst| - 1]) == Some(Folder)
  }

  /** What such a copy may do to the disk; a failed one may leave a partial file. */
  predicate FileCopies(before: Disk, after: Disk, src: Path, dst: Path, ok: bool) {
    if CanCopy(before, src, dst) && dst !in before then
      if ok then after == before[dst := before[src]]
      else after == before || (dst in after && after[dst].File? && after == before[dst := after[dst]])
    else
      !ok && after == before
  }

  /** A copy can succeed exactly if there is a file to copy, a folder to put it in, and nothing at the target. */
  lemma CopySucceedsExactly(disk: Disk, src: Path, dst: Path)
    ensures (exists after :: FileCopies(disk, after, src, dst, true)) <==> CanCopy(disk, src, dst) && dst !in disk
  {
    if CanCopy(disk, src, dst) && dst !in disk {
      assert FileCopies(disk, disk[dst := disk[src]], src, dst, true);
    }
  }

  /** A failed task is retried with the same target. If the copy was possible at all, the retry can succeed exactly if the
      failed copy left nothing there; else it fails again, and so does every later one. */
  lemma RetrySucceedsExactly(before: Disk, mid: Disk, src: Path, dst: Path)
    requires FileCopies(before, mid, src, dst, false) && CanCopy(before, src, dst)
    ensures (exists after :: FileCopies(mid, after, src, dst, true)) <==> dst !in mid
    ensures dst in mid ==> forall after, ok :: FileCopies(mid, after, src, dst, ok) ==> !ok && after == mid
  {
    CopySucceedsExactly(mid, src, dst);
    assert dst[..|dst| - 1] != dst;
  }

  /** One byte is to be copied to a free place, and the copy stops with an empty file there: no retry succeeds. */
  lemma PartialCopyBlocksRetry()
    ensures var before: Disk := map[[] := Folder, ["a"] := File([1])];
            var mid := before[["b"] := File([])];
            && Rooted(before) && CanCopy(before, ["a"], ["b"]) && ["b"] !in before
            && FileCopies(before, mid, ["a"], ["b"], false)
            && forall after, ok :: FileCopies(mid, after, ["a"], ["b"], ok) ==> !ok && after == mid
  {
    var before: Disk := map[[] := Folder, ["a"] := File([1])];
    var mid := before[["b"] := File([])];
    var root: Path := [];
    assert ["b"][..0] == root && ["a"][..0] == root && root in before;
    RetrySucceedsExactly(before, mid, ["a"], ["b"]);
  }

  // ---------- when a copy is possible ----------

  /** A file may be written over dst, or dst is free. */
  predicate CanWrite(disk: Disk, src: Path, dst: Path, overwrite: bool) {
    CanCopy(disk, src, dst) && (dst in disk ==> overwrite && disk[dst].File?)
  }

  /** No file stands where dst or one of the folders leading to it should be. */
  predicate PathFree(disk: Disk, dst: Path) {
    forall k :: 0 <= k <= |dst| && dst[..k] in disk ==> disk[dst[..k]].Folder?
  }

  /** Where src's tree meets something below dst, folders meet folders and files meet files. */
  ghost predicate Fits(disk: Disk, src: Path, dst: Path) {
    forall p :: p in disk && src <= p && dst + p[|src|..] in disk ==> (disk[p].Folder? <==> disk[dst + p[|src|..]].Folder?)
  }

  /** src can be copied over dst, merging folders and overwriting files. */
  ghost predicate Copyable(disk: Disk, src: Path, dst: Path) {
    && src in disk && Fits(disk, src, dst)
    && if disk[src].Folder? then PathFree(disk, dst) else CanCopy(disk, src, dst)
  }

  /** A folder is merged into what is at its target; a file needs a free place. */
  ghost predicate Movable(disk: Disk, src: Path, dst: Path) {
    if Lookup(disk, src) == Some(Folder) then Copyable(disk, src, dst) else CanWrite(disk, src, dst, false)
  }

  lemma LeafCopyable(disk: Disk, src: Path, dst: Path)
    requires Rooted(disk) && Lookup(disk, src) != Some(Folder)
    ensures Copyable(disk, src, dst) <==> CanWrite(disk, src, dst, true)
  {
    if src in disk {
      EstimateOfFile(disk, src);
      hide Rooted;
      LeafFits(disk, src, dst);
    }
  }

  lemma LeafFits(disk: Disk, src: Path, dst: Path)
    requires src in disk && disk[src].File? && Below(disk, src) == {src}
    ensures Fits(disk, src, dst) <==> (dst in disk ==> disk[dst].File?)
  {
    forall p | p in disk && src <= p ensures p == src {
      assert p in Below(disk, src);
    }
    assert dst + src[|src|..] == dst;
  }

  lemma FolderPathFree(disk: Disk, dst: Path)
    requires Rooted(disk) && Lookup(disk, dst) == Some(Folder)
    ensures PathFree(disk, dst)
  {
    forall k | 0 <= k <= |dst| && dst[..k] in disk ensures disk[dst[..k]].Folder? {
      if k < |dst| {
        AncestorsAreFolders(disk, dst, k);
      } else {
        assert dst[..k] == dst;
      }
    }
  }

  lemma FitsBelow(disk: Disk, src: Path, dst: Path, n: Name, p: Path)
    requires Fits(disk, src + [n], dst + [n]) && src + [n] <= p && p in disk && dst + p[|src|..] in disk
    ensures disk[p].Folder? <==> disk[dst + p[|src|..]].Folder?
  {
    assert p[|src|] == (src + [n])[|src|];
    assert p[|src|..] == [n] + p[|src + [n]|..];
    assert dst + p[|src|..] == dst + [n] + p[|src + [n]|..];
  }

  ghost predicate EntriesFit(disk: Disk, src: Path, dst: Path, names: seq<Name>) {
    forall i :: 0 <= i < |names| ==> Fits(disk, src + [names[i]], dst + [names[i]])
  }

  lemma EntriesFitTogether(disk: Disk, src: Path, dst: Path, names: seq<Name>)
    requires Rooted(disk) && Lookup(disk, src) == Some(Folder) && Lists(disk, src, names)
    requires (dst in disk ==> disk[dst].Folder?) && EntriesFit(disk, src, dst, names)
    ensures Fits(disk, src, dst)
  {
    assert dst + src[|src|..] == dst;
    hide Rooted, Lists;
    forall p | p in disk && src <= p && dst + p[|src|..] in disk
      ensures disk[p].Folder? <==> disk[dst + p[|src|..]].Folder?
    {
      if p != src {
        BelowIsNamed(disk, src, names, p);
        var i :| 0 <= i < |names| && names[i] == p[|src|];
        assert p[..|src| + 1] == src + [names[i]];
        FitsBelow(disk, src, dst, names[i], p);
      }
    }
  }

  /** A folder fits exactly if it meets a folder or nothing, and each of its entries fits. */
  lemma FitsByEntry(disk: Disk, src: Path, dst: Path, names: seq<Name>)
    requires Rooted(disk) && Lookup(disk, src) == Some(Folder) && Lists(disk, src, names)
    ensures Fits(disk, src, dst) <==> (dst in disk ==> disk[dst].Folder?) && EntriesFit(disk, src, dst, names)
  {
    if Fits(disk, src, dst) {
      FitsAtTop(disk, src, dst);
      forall i | 0 <= i < |names| ensures Fits(disk, src + [names[i]], dst + [names[i]]) {
        EntryFits(disk, src, dst, names[i]);
      }
    }
    hide Fits;
    if (dst in disk ==> disk[dst].Folder?) && EntriesFit(disk, src, dst, names) {
      EntriesFitTogether(disk, src, dst, names);
    }
  }

  lemma FitsAtTop(disk: Disk, src: Path, dst: Path)
    requires Fits(disk, src, dst) && Lookup(disk, src) == Some(Folder)
    ensures dst in disk ==> disk[dst].Folder?
  {
    assert dst + src[|src|..] == dst;
  }

  lemma EntryFits(disk: Disk, src: Path, dst: Path, n: Name)
    requires Fits(disk, src, dst)
    ensures Fits(disk, src + [n], dst + [n])
  {
    var childSrc, childDst := src + [n], dst + [n];
    forall p | p in disk && childSrc <= p && childDst + p[|childSrc|..] in disk
      ensures disk[p].Folder? <==> disk[childDst + p[|childSrc|..]].Folder?
    {
      assert p[..|src|] == childSrc[..|src|] == src;
      assert p[|src|] == childSrc[|src|];
      assert p[|src|..] == [n] + p[|childSrc|..];
      assert dst + p[|src|..] == childDst + p[|childSrc|..];
    }
  }

  /** When its turn comes, an entry can be copied exactly if it fitted at the start. */
  lemma EntryCopyable(before: Disk, mid: Disk, src: Path, dst: Path, names: seq<Name>, i: nat)
    requires Rooted(before) && Lookup(before, src) == Some(Folder) && Lists(before, src, names) && i < |names|
    requires IsPartlyOverlaid(before, mid, src, dst, names[..i]) && SameBelow(before, mid, src)
    ensures Copyable(mid, src + [names[i]], dst + [names[i]]) <==> Fits(before, src + [names[i]], dst + [names[i]])
  {
    hide Fits, Copyable, IsPartlyOverlaid, SameBelow, Rooted;
    var n := names[i];
    ListedOnce(before, src, names, i);
    SameBelowChild(before, mid, src, n);
    UntouchedEntry(before, mid, src, dst, names[..i], n);
    SameFits(before, mid, src + [n], dst + [n]);
    FoldersAbove(before, mid, src, dst, names[..i], n);
    StillThere(before, mid, src, n);
    FitsIsCopyable(mid, src + [n], dst, n);
  }

  lemma StillThere(before: Disk, mid: Disk, src: Path, n: Name)
    requires SameBelow(before, mid, src) && src + [n] in before
    ensures src + [n] in mid
  {
    assert Lookup(mid, src + [n]) == Lookup(before, src + [n]);
  }

  /** Into a folder that is there, a copy is possible exactly if it fits. */
  lemma FitsIsCopyable(disk: Disk, src: Path, dst: Path, n: Name)
    requires src in disk && forall k :: 0 <= k <= |dst| ==> Lookup(disk, (dst + [n])[..k]) == Some(Folder)
    ensures Copyable(disk, src, dst + [n]) <==> Fits(disk, src, dst + [n])
  {
    var child := dst + [n];
    if Lookup(disk, src) == Some(Folder) && Fits(disk, src, child) {
      FitsAtTop(disk, src, child);
    }
    hide Fits;
    assert child[..|child| - 1] == child[..|dst|] && child[..|child|] == child;
  }

  /** What is below an entry that is still to come is as it was. */
  lemma UntouchedEntry(before: Disk, mid: Disk, src: Path, dst: Path, done: seq<Name>, n: Name)
    requires IsPartlyOverlaid(before, mid, src, dst, done) && n !in done
    ensures SameBelow(before, mid, dst + [n])
  {
    forall p | dst + [n] <= p ensures Lookup(mid, p) == Lookup(before, p) {
      assert p[|dst|] == (dst + [n])[|dst|] == n;
      assert Lookup(mid, p) == PartlyOverlaid(before, src, dst, done, p);
    }
  }

  lemma FoldersAbove(before: Disk, mid: Disk, src: Path, dst: Path, done: seq<Name>, n: Name)
    requires IsPartlyOverlaid(before, mid, src, dst, done) && Lookup(before, src) == Some(Folder)
    ensures forall k :: 0 <= k <= |dst| ==> Lookup(mid, (dst + [n])[..k]) == Some(Folder)
  {
    forall k | 0 <= k <= |dst| ensures Lookup(mid, (dst + [n])[..k]) == Some(Folder) {
      var p := (dst + [n])[..k];
      assert p == dst[..k] && p <= dst;
      assert Lookup(mid, p) == PartlyOverlaid(before, src, dst, done, p);
      if k == |dst| {
        assert p == dst && src + p[|dst|..] == src;
      }
    }
  }

  lemma SameFits(before: Disk, mid: Disk, src: Path, dst: Path)
    requires SameBelow(before, mid, src) && SameBelow(before, mid, dst)
    ensures Fits(before, src, dst) <==> Fits(mid, src, dst)
  {
    FitsMoves(before, mid, src, dst);
    FitsMoves(mid, before, src, dst);
  }

  lemma FitsMoves(before: Disk, mid: Disk, src: Path, dst: Path)
    requires SameBelow(before, mid, src) && SameBelow(before, mid, dst)
    ensures Fits(before, src, dst) ==> Fits(mid, src, dst)
  {
    if Fits(before, src, dst) {
      forall p | p in mid && src <= p && dst + p[|src|..] in mid
        ensures mid[p].Folder? <==> mid[dst + p[|src|..]].Folder?
      {
        assert dst <= dst + p[|src|..];
        assert Lookup(mid, p) == Lookup(before, p) && Lookup(mid, dst + p[|src|..]) == Lookup(before, dst + p[|src|..]);
      }
    }
  }

  lemma TargetIsFree(disk: Disk, dst: Path)
    requires PathFree(disk, dst)
    ensures dst in disk ==> disk[dst].Folder?
  {
    assert dst[..|dst|] == dst;
  }

  /** Where a rename is possible, so is a copy. */
  lemma FreeIsMovable(disk: Disk, src: Path, dst: Path)
    requires Rooted(disk) && src in disk && dst !in disk && dst != [] && Lookup(disk, dst[..|dst| - 1]) == Some(Folder)
    ensures Movable(disk, src, dst)
  {
    if disk[src].Folder? {
      FreePathFree(disk, dst);
      ThereIsNothingBelow(disk, dst);
      forall p | src <= p ensures dst + p[|src|..] !in disk {
        assert dst + p[|src|..] !in Below(disk, dst);
      }
    }
  }

  lemma FreePathFree(disk: Disk, dst: Path)
    requires Rooted(disk) && dst !in disk && dst != [] && Lookup(disk, dst[..|dst| - 1]) == Some(Folder)
    ensures PathFree(disk, dst)
  {
    var parent := dst[..|dst| - 1];
    FolderPathFree(disk, parent);
    assert dst[..|dst|] == dst;
    forall k | 0 <= k < |dst| ensures dst[..k] == parent[..k] {
    }
  }

  lemma PathFreeExtends(disk: Disk, dst: Path, k: nat)
    requires k < |dst| && PathFree(disk, dst[..k])
    ensures (dst[..k + 1] in disk ==> disk[dst[..k + 1]].Folder?) <==> PathFree(disk, dst[..k + 1])
    ensures PathFree(disk, dst) ==> PathFree(disk, dst[..k + 1])
  {
    var next, last := dst[..k + 1], dst[..k];
    assert next[..k + 1] == next;
    assert forall j :: 0 <= j <= k + 1 ==> next[..j] == dst[..j];
    assert forall j :: 0 <= j <= k ==> last[..j] == dst[..j];
    if next in disk ==> disk[next].Folder? {
      forall j | 0 <= j <= |next| && next[..j] in disk ensures disk[next[..j]].Folder? {
        if j <= k {
          assert next[..j] == last[..j];
        }
      }
    }
  }

  lemma RootIsFree(disk: Disk, dst: Path)
    requires Rooted(disk)
    ensures PathFree(disk, dst[..0])
  {
    assert dst[..0] == [];
  }

  // ---------- the worker ----------

  predicate Nondecreasing(xs: seq<int>) {
    forall i, j :: 0 <= i < j < |xs| ==> xs[i] <= xs[j]
  }

  predicate Within(xs: seq<int>, lo: int, hi: int) {
    forall i :: 0 <= i < |xs| ==> lo <= xs[i] <= hi
  }

  lemma Widened(xs: seq<int>, hi: int, limit: int)
    requires Within(xs, 0, hi) && hi <= limit
    ensures Within(xs, 0, limit)
  {
  }

  /** reliable says whether every primitive that can succeed does; no task asks for it. A rename may fail even then, as it
      does between file systems, but leaves nothing behind. */
  class Worker {
    const reliable: bool
    var disk: Disk
    var overallTotal: int
    var overallDone: int
    var reports: seq<int>

    constructor (disk: Disk, reliable: bool)
      ensures this.disk == disk && this.reliable == reliable && reports == []
    {
      this.reliable := reliable;
      this.disk, overallTotal, overallDone, reports := disk, 1, 0, [];
    }

    /** The byte counts the copy library reports for one file: increasing, and never more than the file has. */
    method FileCallbacks(size: nat) returns (ticks: seq<int>)
      ensures Nondecreasing(ticks) && Within(ticks, 0, size)
    {
      assert Nondecreasing([]) && Within([], 0, size);
      ticks :| Nondecreasing(ticks) && Within(ticks, 0, size);
    }

    /** Copies one file. A failure may leave anything in the target file, but touches nothing else. */
    method CopyFile(src: Path, dst: Path, overwrite: bool) returns (ok: bool, ticks: seq<int>)
      requires Rooted(disk)
      modifies this`disk
      ensures Rooted(disk) && OnlyTouches(old(disk), disk, dst)
      ensures Nondecreasing(ticks) && Within(ticks, 0, Size(old(disk), src))
      ensures ok ==> src in old(disk) && old(disk)[src].File? && IsOverlay(old(disk), disk, src, dst)
      ensures !overwrite && dst in old(disk) ==> !ok && disk == old(disk)
      ensures !overwrite ==> FileCopies(old(disk), disk, src, dst, ok)
      ensures ok ==> CanWrite(old(disk), src, dst, overwrite)
      ensures reliable && CanWrite(old(disk), src, dst, overwrite) ==> ok
    {
      ticks := [];
      if src !in disk || disk[src].Folder? {
        return false, ticks;
      }
      if dst == [] || Lookup(disk, dst[..|dst| - 1]) != Some(Folder) {
        return false, ticks;
      }
      if dst in disk && (disk[dst].Folder? || !overwrite) {
        return false, ticks;
      }
      ghost var before := disk;
      var size := |disk[src].content|;
      ticks := FileCallbacks(size);
      ok := *;
      ok := reliable || ok;
      if ok {
        ticks := ticks + [size];
        disk := disk[dst := disk[src]];
        OneFileOverlaid(before, src, dst);
      } else if * {
        var partial: seq<bv8> := *;
        disk := disk[dst := File(partial)];
      }
      FileWritten(before, disk, dst);
    }

    /** Makes a folder and every missing folder above it. */
    method MakePath(dst: Path) returns (ok: bool)
      requires Rooted(disk)
      modifies this`disk
      ensures Rooted(disk) && OnlyTouches(old(disk), disk, dst)
      ensures ok ==> forall p :: Lookup(disk, p) == if p <= dst then Some(Folder) else Lookup(old(disk), p)
      ensures ok ==> PathFree(old(disk), dst)
      ensures reliable && PathFree(old(disk), dst) ==> ok
    {
      hide PathFree;
      RootIsFree(disk, dst);
      var k := 0;
      while k < |dst|
        invariant 0 <= k <= |dst| && Rooted(disk) && OnlyTouches(old(disk), disk, dst)
        invariant PathFree(old(disk), dst[..k])
        invariant forall p :: Lookup(disk, p) == if p <= dst[..k] then Some(Folder) else Lookup(old(disk), p)
      {
        ghost var before := disk;
        var next := dst[..k + 1];
        assert next[..k] == dst[..k];
        assert Lookup(disk, next) == Lookup(old(disk), next);
        PathFreeExtends(old(disk), dst, k);
        if next in disk && disk[next].File? {
          return false;
        }
        if next !in disk {
          ok := *;
          ok := reliable || ok;
          if !ok {
            return false;
          }
          disk := disk[next := Folder];
        }
        FolderMade(old(disk), before, disk, dst, k);
        k := k + 1;
      }
      assert dst[..k] == dst;
      ok := true;
    }

    /** The names in a folder, in some order. */
    method List(p: Path) returns (names: seq<Name>)
      ensures Lists(disk, p, names)
    {
      var left := set q | q in disk && |q| == |p| + 1 && p <= q :: q[|p|];
      ghost var all := left;
      names := [];
      while left != {}
        invariant forall n :: n in all <==> n in left || n in names
        invariant forall n :: n in names ==> n !in left
        invariant forall i, j :: 0 <= i < j < |names| ==> names[i] != names[j]
        decreases left
      {
        var n :| n in left;
        left, names := left - {n}, names + [n];
      }
      forall n
        ensures p + [n] in disk <==> n in names
      {
        if p + [n] in disk {
          var q := p + [n];
          assert q in disk && |q| == |p| + 1 && p <= q && q[|p|] == n;
        }
        if n in all {
          var q :| q in disk && |q| == |p| + 1 && p <= q && q[|p|] == n;
          assert q == p + [n];
        }
      }
    }

    /** The progress shown so far: never backwards, never beyond what has been copied. */
    ghost predicate Steady()
      reads this
    {
      Nondecreasing(reports) && Within(reports, 0, overallDone)
    }

    method Report(value: int)
      requires Nondecreasing(reports) && (reports != [] ==> reports[|reports| - 1] <= value)
      modifies this`reports
      ensures reports == old(reports) + [value] && Nondecreasing(reports)
    {
      reports := reports + [value];
    }

    /** Forwards the callbacks of one file to the overall progress. */
    method ForwardCallbacks(ticks: seq<int>, size: nat)
      requires Steady() && Nondecreasing(ticks) && Within(ticks, 0, size)
      requires 0 <= overallDone && overallDone + size <= overallTotal
      modifies this`reports
      ensures Nondecreasing(reports) && Within(reports, 0, overallDone + size)
    {
      for i := 0 to |ticks|
        invariant Nondecreasing(reports)
        invariant Within(reports, 0, overallDone + size)
        invariant reports != [] ==> reports[|reports| - 1] <= overallDone + if i == 0 then 0 else ticks[i - 1]
      {
        var boundedTotal := Max(1, size);
        var boundedDone := Min(Max(0, ticks[i]), boundedTotal);
        assert boundedDone == ticks[i];
        Report(Min(overallTotal, overallDone + boundedDone));
      }
    }

    /** The recursive step: copies src over dst, adding what it copies to overallDone. */
    method CopyStep(src: Path, dst: Path) returns (ok: bool)
      requires Rooted(disk) && Apart(src, dst)
      requires Steady() && 0 <= overallDone && overallDone + Estimate(disk, src) <= overallTotal
      modifies this
      ensures Rooted(disk) && OnlyTouches(old(disk), disk, dst) && overallTotal == old(overallTotal)
      ensures Nondecreasing(reports) && Within(reports, 0, overallTotal)
      ensures ok ==> src in old(disk) && IsOverlay(old(disk), disk, src, dst)
      ensures ok ==> Steady() && overallDone == old(overallDone) + Estimate(old(disk), src)
      ensures ok ==> Copyable(old(disk), src, dst)
      ensures reliable && Copyable(old(disk), src, dst) ==> ok
      decreases |Below(disk, src)|, 2
    {
      hide OnlyTouches, IsOverlay, Rooted, Estimate, Below, Apart, Fits, PathFree;
      if Lookup(disk, src) == Some(Folder) {
        ok := CopyFolder(src, dst);
      } else {
        ok := CopyOneFile(src, dst);
      }
    }

    method CopyOneFile(src: Path, dst: Path) returns (ok: bool)
      requires Rooted(disk) && Lookup(disk, src) != Some(Folder)
      requires Steady() && 0 <= overallDone && overallDone + Estimate(disk, src) <= overallTotal
      modifies this
      ensures Rooted(disk) && OnlyTouches(old(disk), disk, dst) && overallTotal == old(overallTotal)
      ensures Nondecreasing(reports) && Within(reports, 0, overallTotal)
      ensures ok ==> src in old(disk) && IsOverlay(old(disk), disk, src, dst)
      ensures ok ==> Steady() && overallDone == old(overallDone) + Estimate(old(disk), src)
      ensures ok ==> Copyable(old(disk), src, dst)
      ensures reliable && Copyable(old(disk), src, dst) ==> ok
    {
      hide OnlyTouches, IsOverlay, Rooted, Estimate, Nondecreasing, Size, CanWrite, Copyable;
      EstimateOfLeaf(disk, src);
      LeafCopyable(disk, src, dst);
      var size := Size(disk, src);
      var ticks;
      ok, ticks := CopyFile(src, dst, true);
      ForwardCallbacks(ticks, size);
      if !ok {
        return;
      }
      overallDone := Min(overallTotal, overallDone + Max(0, size));
      Report(overallDone);
    }

    /** Makes sure the target folder is there. */
    method OpenTarget(src: Path, dst: Path) returns (ok: bool)
      requires Rooted(disk) && Apart(src, dst) && Lookup(disk, src) == Some(Folder)
      modifies this`disk
      ensures Rooted(disk) && OnlyTouches(old(disk), disk, dst) && SameBelow(old(disk), disk, src)
      ensures ok ==> IsPartlyOverlaid(old(disk), disk, src, dst, [])
      ensures ok ==> PathFree(old(disk), dst)
      ensures reliable && PathFree(old(disk), dst) ==> ok
    {
      hide PathFree;
      ghost var before := disk;
      ok := true;
      if Lookup(disk, dst) != Some(Folder) {
        ok := MakePath(dst);
      } else {
        FolderPathFree(disk, dst);
      }
      TouchedApart(before, disk, src, dst);
      if ok {
        FolderReady(before, disk, src, dst);
      }
    }

    /** Copies the i-th entry of src; before is the disk before the first one. */
    method CopyEntry(src: Path, dst: Path, names: seq<Name>, i: nat, ghost before: Disk) returns (ok: bool)
      requires Rooted(before) && Lookup(before, src) == Some(Folder) && Lists(before, src, names) && i < |names|
      requires Rooted(disk) && OnlyTouches(before, disk, dst) && Apart(src, dst)
      requires IsPartlyOverlaid(before, disk, src, dst, names[..i])
      requires Steady() && 0 <= overallDone && overallDone + Estimate(before, src + [names[i]]) <= overallTotal
      modifies this
      ensures Rooted(disk) && OnlyTouches(before, disk, dst) && overallTotal == old(overallTotal)
      ensures Nondecreasing(reports) && Within(reports, 0, overallTotal)
      ensures ok ==> IsPartlyOverlaid(before, disk, src, dst, names[..i + 1])
      ensures ok ==> Steady() && overallDone == old(overallDone) + Estimate(before, src + [names[i]])
      ensures ok ==> Fits(before, src + [names[i]], dst + [names[i]])
      ensures reliable && Fits(before, src + [names[i]], dst + [names[i]]) ==> ok
      decreases |Below(before, src)|, 0
    {
      hide Copyable, Fits, OnlyTouches, IsOverlay, IsPartlyOverlaid, Rooted, Lists, SameBelow, Estimate, SumOfSizes, Below, BelowNamed, Apart,
           Nondecreasing, Within;
      var childSrc, childDst := src + [names[i]], dst + [names[i]];
      ghost var mid := disk;
      BeforeChild(before, mid, src, dst, names, i);
      EntryCopyable(before, mid, src, dst, names, i);
      ok := CopyStep(childSrc, childDst);
      TouchesTwice(before, mid, disk, dst, childDst);
      if ok {
        OverlayOneMore(before, mid, disk, src, dst, names[..i], names[i]);
        assert names[..i + 1] == names[..i] + [names[i]];
      }
    }

    method CopyFolder(src: Path, dst: Path) returns (ok: bool)
      requires Rooted(disk) && Apart(src, dst) && Lookup(disk, src) == Some(Folder)
      requires Steady() && 0 <= overallDone && overallDone + Estimate(disk, src) <= overallTotal
      modifies this
      ensures Rooted(disk) && OnlyTouches(old(disk), disk, dst) && overallTotal == old(overallTotal)
      ensures Nondecreasing(reports) && Within(reports, 0, overallTotal)
      ensures ok ==> src in old(disk) && IsOverlay(old(disk), disk, src, dst)
      ensures ok ==> Steady() && overallDone == old(overallDone) + Estimate(old(disk), src)
      ensures ok ==> Fits(old(disk), src, dst) && PathFree(old(disk), dst)
      ensures reliable && Fits(old(disk), src, dst) && PathFree(old(disk), dst) ==> ok
      decreases |Below(disk, src)|, 1
    {
      hide Fits, PathFree, OnlyTouches, IsOverlay, IsPartlyOverlaid, Rooted, Lists, SameBelow, Estimate, SumOfSizes, Below, BelowNamed, Apart,
           Nondecreasing, Within;
      ghost var before, start := disk, overallDone;
      Widened(reports, overallDone, overallTotal);
      ok := OpenTarget(src, dst);
      if !ok {
        return;
      }
      var names := List(src);
      ListedAsBefore(before, disk, src, names);
      FitsByEntry(before, src, dst, names);
      TargetIsFree(before, dst);
      NothingNamed(before, src);
      assert names[..0] == [];
      for i := 0 to |names|
        invariant Rooted(disk) && OnlyTouches(before, disk, dst) && overallTotal == old(overallTotal)
        invariant IsPartlyOverlaid(before, disk, src, dst, names[..i])
        invariant Steady() && 0 <= overallDone
        invariant overallDone == start + SumOfSizes(before, BelowNamed(before, src, names[..i]))
        invariant forall j :: 0 <= j < i ==> Fits(before, src + [names[j]], dst + [names[j]])
      {
        BeforeChild(before, disk, src, dst, names, i);
        ok := CopyEntry(src, dst, names, i, before);
        if !ok {
          return;
        }
      }
      assert names[..|names|] == names;
      OverlayComplete(before, disk, src, dst, names);
      BelowFolder(before, src, names);
      Widened(reports, overallDone, overallTotal);
      ok := true;
    }

    /** copyRecursivelyBatch: on success the target is the overlay, and the progress ran up to the estimate. */
    method CopyRecursively(src: Path, dst: Path) returns (ok: bool)
      requires Rooted(disk) && Apart(src, dst)
      modifies this
      ensures Rooted(disk) && OnlyTouches(old(disk), disk, dst) && SameBelow(old(disk), disk, src)
      ensures src in old(disk) ==> overallTotal == Max(1, Estimate(old(disk), src))
      ensures src in old(disk) ==> Nondecreasing(reports) && Within(reports, 0, overallTotal)
      ensures ok ==> src in old(disk) && IsOverlay(old(disk), disk, src, dst)
      ensures ok ==> overallDone == Estimate(old(disk), src)
      ensures ok ==> reports != [] && reports[|reports| - 1] == overallTotal
      ensures src !in old(disk) ==> !ok && disk == old(disk)
      ensures ok ==> Copyable(old(disk), src, dst)
      ensures reliable && Copyable(old(disk), src, dst) ==> ok
    {
      if src !in disk {
        return false;
      }
      ghost var before := disk;
      reports := [];
      var estimate := EstimateBytes(src);
      overallTotal := Max(1, estimate);
      overallDone := 0;
      ok := CopyStep(src, dst);
      TouchedApart(before, disk, src, dst);
      if ok {
        Report(overallTotal);
      }
    }

    /** The directory walk: the sizes of all files below src, in whatever order they come. */
    method EstimateBytes(src: Path) returns (total: nat)
      ensures total == Estimate(disk, src)
    {
      var left := Below(disk, src);
      total := 0;
      while left != {}
        invariant total + SumOfSizes(disk, left) == Estimate(disk, src)
        decreases left
      {
        var p :| p in left;
        SumPick(disk, left, p);
        total, left := total + Size(disk, p), left - {p};
      }
    }

    /** Deletes a file or an empty folder. */
    method DeleteOne(p: Path) returns (ok: bool)
      requires Rooted(disk)
      modifies this`disk
      ensures Rooted(disk)
      ensures ok ==> p in old(disk) && Below(old(disk), p) == {p} && disk == old(disk) - {p}
      ensures !ok ==> disk == old(disk)
      ensures ok ==> p != []
      ensures reliable && p != [] && Below(old(disk), p) == {p} ==> ok
    {
      if p == [] || Below(disk, p) != {p} {
        return false;
      }
      ok := *;
      ok := reliable || ok;
      if ok {
        NothingOrphaned(disk, p);
        disk := disk - {p};
      }
    }

    /** removeRecursivelyPathBatch: removes everything below p, or fails having removed only things below p. */
    method RemoveRecursively(p: Path) returns (ok: bool)
      requires Rooted(disk)
      modifies this`disk
      ensures Rooted(disk) && OnlyRemoves(old(disk), disk, p)
      ensures ok ==> Removed(old(disk), disk, p) && p != []
      ensures reliable && p != [] ==> ok
      decreases |Below(disk, p)|, 1
    {
      ghost var before := disk;
      if p !in disk {
        ThereIsNothingBelow(disk, p);
        AlreadyRemoved(disk, p);
        return true;
      }
      if disk[p].Folder? {
        ok := RemoveEntries(p);
        if !ok {
          return;
        }
      }
      ghost var mid := disk;
      if disk[p].File? {
        EstimateOfFile(disk, p);
      }
      ok := DeleteOne(p);
      if ok {
        LastRemoved(before, mid, disk, p);
      }
    }

    method RemoveEntries(p: Path) returns (ok: bool)
      requires Rooted(disk) && Lookup(disk, p) == Some(Folder)
      modifies this`disk
      ensures Rooted(disk) && OnlyRemoves(old(disk), disk, p) && Lookup(disk, p) == Some(Folder)
      ensures ok ==> Below(disk, p) == {p}
      ensures reliable ==> ok
      decreases |Below(disk, p)|, 0
    {
      hide OnlyRemoves, Removed, Rooted, Below, Lists;
      ghost var before := disk;
      var names := List(p);
      RemovesNothing(disk, p);
      for i := 0 to |names|
        invariant Rooted(disk) && OnlyRemoves(before, disk, p) && Lookup(disk, p) == Some(Folder)
        invariant forall j :: 0 <= j < i ==> Below(disk, p + [names[j]]) == {}
      {
        ghost var mid := disk;
        var child := p + [names[i]];
        FewerBelow(before, mid, p, child);
        ok := RemoveRecursively(child);
        RemovesTwice(before, mid, disk, p, child);
        RemovesOnlyBelow(mid, disk, p, child, names);
        if !ok {
          return;
        }
        RemovedIsEmpty(mid, disk, child);
      }
      EntriesRemoved(before, disk, p, names);
      ok := true;
    }

    /** g_file_move without overwriting. A failed move of a folder changes nothing; a failed move of a file
        may leave a partial file at the target. */
    method Rename(src: Path, dst: Path) returns (ok: bool)
      requires Rooted(disk) && Apart(src, dst)
      modifies this`disk
      ensures Rooted(disk) && OnlyTouchesBoth(old(disk), disk, src, dst)
      ensures ok ==> src in old(disk) && IsMoved(old(disk), disk, src, dst)
      ensures !ok ==> OnlyTouches(old(disk), disk, dst)
      ensures !ok && disk != old(disk) ==> Lookup(disk, src) != Some(Folder) && dst in disk
      ensures dst in old(disk) ==> !ok && disk == old(disk)
      ensures ok ==> Movable(old(disk), src, dst)
      ensures reliable && !ok ==> disk == old(disk)
    {
      if src !in disk || dst in disk || dst == [] || Lookup(disk, dst[..|dst| - 1]) != Some(Folder) {
        return false;
      }
      ghost var before := disk;
      FreeIsMovable(disk, src, dst);
      ok := *;
      if ok {
        RenamedIsMoved(disk, src, dst);
        disk := Renamed(disk, src, dst);
      } else {
        var spoiled: bool := *;
        if disk[src].File? && spoiled && !reliable {
          var partial: seq<bv8> := *;
          assert src != dst;
          disk := disk[dst := File(partial)];
        }
        FileWritten(before, disk, dst);
        TouchesOneOfBoth(before, disk, src, dst);
      }
    }

    /** A Move or Restore task: rename, else copy and then remove the source. Whatever fails, the source tree is
        complete at the source or complete at the target. As the engine never asks to overwrite (BatchRuns), the
        move of a file onto something that exists fails and changes nothing. */
    method MoveTask(src: Path, dst: Path) returns (ok: bool)
      requires Rooted(disk) && Apart(src, dst)
      modifies this
      ensures Rooted(disk)
      ensures ok ==> src in old(disk) && IsMoved(old(disk), disk, src, dst)
      ensures SameBelow(old(disk), disk, src) || CompleteAt(old(disk), disk, src, dst)
      ensures OnlyTouchesBoth(old(disk), disk, src, dst)
      ensures NoFileLost(old(disk), disk, src, dst)
      ensures Lookup(old(disk), src) != Some(Folder) && dst in old(disk) ==> !ok && disk == old(disk)
      ensures ok ==> Movable(old(disk), src, dst)
      ensures reliable && Movable(old(disk), src, dst) ==> ok
    {
      hide OnlyTouches, IsOverlay, IsMoved, CompleteAt, SameBelow, OnlyTouchesBoth, Rooted, Removed, OnlyRemoves, Apart, Estimate,
           NoFileLost;
      ghost var before := disk;
      ApartIsBelowRoot(src, dst);
      ok := Rename(src, dst);
      if ok {
        MovedIsComplete(before, disk, src, dst);
        NoFileIsLost(before, disk, src, dst);
        return;
      }
      ghost var mid := disk;
      TouchedApart(before, mid, src, dst);
      TouchesOneOfBoth(before, mid, src, dst);
      if Lookup(disk, src) == Some(Folder) {
        ok := CopyRecursively(src, dst);
        TouchedApart(mid, disk, src, dst);
      } else {
        var ticks;
        ok, ticks := CopyFile(src, dst, false);
        TouchedApart(mid, disk, src, dst);
      }
      ghost var copied := disk;
      TouchesBothTwice(before, mid, copied, src, dst);
      SameBelowTwice(before, mid, copied, src);
      NoFileIsLost(before, copied, src, dst);
      if !ok {
        return;
      }
      assert mid == before;
      ok := RemoveRecursively(src);
      CopiedThenRemoved(before, copied, disk, src, dst);
      NoFileIsLost(before, disk, src, dst);
      if ok {
        CopiedAndRemoved(before, copied, disk, src, dst);
      }
    }

    /** A copy; taskIsFolder was recorded when the batch was given. A file is never copied onto something that exists. */
    method CopyTask(src: Path, dst: Path, taskIsFolder: bool) returns (ok: bool)
      requires Rooted(disk) && Apart(src, dst)
      modifies this
      ensures Rooted(disk) && OnlyTouches(old(disk), disk, dst) && SameBelow(old(disk), disk, src)
      ensures ok ==> src in old(disk) && IsOverlay(old(disk), disk, src, dst)
      ensures !taskIsFolder ==> FileCopies(old(disk), disk, src, dst, ok)
      ensures !taskIsFolder && dst in old(disk) ==> !ok && disk == old(disk)
      ensures ok ==> if taskIsFolder then Copyable(old(disk), src, dst) else CanWrite(old(disk), src, dst, false)
      ensures reliable && (if taskIsFolder then Copyable(old(disk), src, dst) else CanWrite(old(disk), src, dst, false)) ==> ok
    {
      ghost var before := disk;
      if taskIsFolder {
        ok := CopyRecursively(src, dst);
      } else {
        var ticks;
        ok, ticks := CopyFile(src, dst, false);
      }
      TouchedApart(before, disk, src, dst);
    }
  }

  lemma OneFileOverlaid(before: Disk, src: Path, dst: Path)
    requires Rooted(before) && src in before && before[src].File?
    requires dst != [] && Lookup(before, dst[..|dst| - 1]) == Some(Folder)
    requires dst in before ==> before[dst].File?
    ensures IsOverlay(before, before[dst := before[src]], src, dst)
  {
    var after := before[dst := before[src]];
    forall p
      ensures Lookup(after, p) == Overlaid(before, src, dst, p)
    {
      if dst <= p {
        var q := src + p[|dst|..];
        if p == dst {
          assert q == src;
        } else if q in before {
          assert q[..|src|] == src;
          AncestorsAreFolders(before, q, |src|);
          assert false;
        }
      } else if p < dst {
        ParentChain(before, dst, p);
      }
    }
  }

  lemma ParentChain(disk: Disk, dst: Path, p: Path)
    requires Rooted(disk) && dst != [] && Lookup(disk, dst[..|dst| - 1]) == Some(Folder)
    requires p < dst
    ensures Lookup(disk, p) == Some(Folder)
  {
    var parent := dst[..|dst| - 1];
    if p != parent {
      AncestorsAreFolders(disk, parent, |p|);
      assert parent[..|p|] == p;
    }
  }

  lemma FileWritten(before: Disk, after: Disk, dst: Path)
    requires Rooted(before) && dst != [] && Lookup(before, dst[..|dst| - 1]) == Some(Folder)
    requires dst in before ==> before[dst].File?
    requires after == before || (Lookup(after, dst).Some? && after[dst].File? && after == before[dst := after[dst]])
    ensures Rooted(after) && OnlyTouches(before, after, dst)
  {
  }

  lemma FolderMade(first: Disk, before: Disk, after: Disk, dst: Path, k: nat)
    requires k < |dst| && Rooted(before) && OnlyTouches(first, before, dst)
    requires forall p :: Lookup(before, p) == if p <= dst[..k] then Some(Folder) else Lookup(first, p)
    requires if dst[..k + 1] in before then before[dst[..k + 1]].Folder? && after == before
             else after == before[dst[..k + 1] := Folder]
    ensures Rooted(after) && OnlyTouches(first, after, dst)
    ensures forall p :: Lookup(after, p) == if p <= dst[..k + 1] then Some(Folder) else Lookup(first, p)
  {
    var next := dst[..k + 1];
    assert next[..k] == dst[..k];
    forall p
      ensures Lookup(after, p) == if p <= next then Some(Folder) else Lookup(first, p)
    {
      assert p <= next && p != next ==> p == next[..|p|] == dst[..k][..|p|];
      assert Lookup(before, p) == if p <= dst[..k] then Some(Folder) else Lookup(first, p);
    }
    assert next[..|next| - 1] == dst[..k] && Lookup(before, dst[..k]) == Some(Folder);
    RootedWith(before, after, next);
  }

  lemma RootedWith(before: Disk, after: Disk, next: Path)
    requires Rooted(before) && next != [] && Lookup(before, next[..|next| - 1]) == Some(Folder)
    requires after == before || (next !in before && after == before[next := Folder])
    ensures Rooted(after)
  {
    forall p | p in after && p != []
      ensures Lookup(after, p[..|p| - 1]) == Some(Folder)
    {
      assert Lookup(before, p[..|p| - 1]) == Some(Folder);
    }
  }

  lemma ThereIsNothingBelow(disk: Disk, p: Path)
    requires Rooted(disk) && p !in disk
    ensures Below(disk, p) == {} && Estimate(disk, p) == 0
  {
    forall q | q in disk && p <= q
      ensures false
    {
      assert q[..|p|] == p;
      AncestorsExist(disk, q, |p|);
    }
  }

  lemma NothingOrphaned(disk: Disk, p: Path)
    requires Rooted(disk) && p != [] && Below(disk, p) == {p}
    ensures Rooted(disk - {p})
  {
  }

  /** Nothing changed except that things below p may be gone. */
  ghost predicate OnlyRemoves(before: Disk, after: Disk, p: Path) {
    forall q :: Lookup(after, q) == Lookup(before, q) || (p <= q && Lookup(after, q) == None)
  }

  /** Everything below p is gone, and nothing else. */
  ghost predicate Removed(before: Disk, after: Disk, p: Path) {
    forall q :: Lookup(after, q) == if p <= q then None else Lookup(before, q)
  }

  lemma FewerBelow(before: Disk, mid: Disk, p: Path, child: Path)
    requires p in before && p < child && OnlyRemoves(before, mid, p)
    ensures |Below(mid, child)| < |Below(before, p)|
  {
    forall q | q in Below(mid, child)
      ensures q in Below(before, p)
    {
      assert Lookup(mid, q) == Lookup(before, q);
    }
    StrictSubset(Below(mid, child), Below(before, p), p);
  }

  lemma RemovesNothing(disk: Disk, p: Path)
    ensures OnlyRemoves(disk, disk, p)
  {
  }

  lemma RemovesTwice(a: Disk, b: Disk, c: Disk, p: Path, child: Path)
    requires OnlyRemoves(a, b, p) && OnlyRemoves(b, c, child) && p <= child
    ensures OnlyRemoves(a, c, p)
  {
  }

  lemma AlreadyRemoved(disk: Disk, p: Path)
    requires Below(disk, p) == {}
    ensures OnlyRemoves(disk, disk, p) && Removed(disk, disk, p)
  {
    forall q | p <= q
      ensures Lookup(disk, q) == None
    {
      assert q !in Below(disk, p);
    }
  }

  lemma RemovesOnlyBelow(before: Disk, after: Disk, p: Path, child: Path, names: seq<Name>)
    requires OnlyRemoves(before, after, child) && p < child
    ensures Lookup(after, p) == Lookup(before, p)
    ensures forall q :: Below(before, q) == {} ==> Below(after, q) == {}
  {
    forall q | Below(before, q) == {} ensures Below(after, q) == {} {
      forall x ensures x !in Below(after, q) {
        assert x !in Below(before, q);
        assert Lookup(after, x) == Lookup(before, x) || Lookup(after, x) == None;
      }
    }
  }

  lemma RemovedIsEmpty(before: Disk, after: Disk, p: Path)
    requires Removed(before, after, p)
    ensures Below(after, p) == {}
  {
    forall x ensures x !in Below(after, p) {
      assert Lookup(after, x) == if p <= x then None else Lookup(before, x);
    }
  }

  lemma EntryAbove(before: Disk, after: Disk, p: Path, names: seq<Name>, q: Path) returns (j: nat)
    requires Rooted(before) && Lists(before, p, names) && OnlyRemoves(before, after, p) && q in after && p < q
    ensures j < |names| && q in Below(after, p + [names[j]])
  {
    RemovedWereThere(before, after, p, q);
    hide Rooted, OnlyRemoves, Lists;
    BelowIsNamed(before, p, names, q);
    j :| 0 <= j < |names| && names[j] == q[|p|];
    assert q[..|p| + 1] == p + [names[j]];
  }

  lemma RemovedWereThere(before: Disk, after: Disk, p: Path, q: Path)
    requires OnlyRemoves(before, after, p) && q in after
    ensures q in before
  {
    assert Lookup(after, q) == Lookup(before, q);
  }

  lemma EntriesRemoved(before: Disk, after: Disk, p: Path, names: seq<Name>)
    requires Rooted(before) && Lists(before, p, names) && OnlyRemoves(before, after, p) && p in after
    requires forall j :: 0 <= j < |names| ==> Below(after, p + [names[j]]) == {}
    ensures Below(after, p) == {p}
  {
    forall q | q in Below(after, p) ensures q == p {
      if q != p {
        var j := EntryAbove(before, after, p, names, q);
        assert false;
      }
    }
  }

  lemma LastRemoved(before: Disk, mid: Disk, after: Disk, p: Path)
    requires OnlyRemoves(before, mid, p) && Below(mid, p) == {p} && after == mid - {p}
    ensures OnlyRemoves(before, after, p) && Removed(before, after, p)
  {
  }

  lemma FolderReady(before: Disk, after: Disk, src: Path, dst: Path)
    requires Rooted(before) && Rooted(after) && Lookup(before, src) == Some(Folder)
    requires OnlyTouches(before, after, dst)
    requires
      || (after == before && Lookup(before, dst) == Some(Folder))
      || forall p :: Lookup(after, p) == if p <= dst then Some(Folder) else Lookup(before, p)
    ensures IsPartlyOverlaid(before, after, src, dst, [])
  {
    forall p
      ensures Lookup(after, p) == PartlyOverlaid(before, src, dst, [], p)
    {
      if p == dst {
        assert src + p[|dst|..] == src;
      } else if p < dst && dst in before {
        AncestorsAreFolders(before, dst, |p|);
        assert dst[..|p|] == p;
      }
    }
  }

  lemma ListedAsBefore(before: Disk, after: Disk, src: Path, names: seq<Name>)
    requires SameBelow(before, after, src) && Lists(after, src, names)
    ensures Lists(before, src, names)
  {
    forall n
      ensures src + [n] in before <==> n in names
    {
      assert Lookup(after, src + [n]) == Lookup(before, src + [n]);
    }
  }

  lemma NothingNamed(disk: Disk, p: Path)
    ensures SumOfSizes(disk, BelowNamed(disk, p, [])) == 0
  {
  }

  lemma EstimateOfLeaf(disk: Disk, p: Path)
    requires Rooted(disk) && Lookup(disk, p) != Some(Folder)
    ensures Estimate(disk, p) == Size(disk, p)
  {
    if p in disk {
      EstimateOfFile(disk, p);
    } else {
      ThereIsNothingBelow(disk, p);
    }
  }

  lemma ListedOnce(disk: Disk, p: Path, names: seq<Name>, i: nat)
    requires Lists(disk, p, names) && i < |names|
    ensures names[i] !in names[..i]
  {
  }

  /** What the recursive call for the i-th entry of src needs. */
  lemma BeforeChild(before: Disk, mid: Disk, src: Path, dst: Path, names: seq<Name>, i: nat)
    requires Rooted(before) && Lookup(before, src) == Some(Folder) && Lists(before, src, names) && i < |names|
    requires OnlyTouches(before, mid, dst) && Apart(src, dst)
    ensures SameBelow(before, mid, src)
    ensures Apart(src + [names[i]], dst + [names[i]])
    ensures names[i] !in names[..i]
    ensures Estimate(mid, src + [names[i]]) == Estimate(before, src + [names[i]])
    ensures |Below(mid, src + [names[i]])| < |Below(before, src)|
    ensures SumOfSizes(before, BelowNamed(before, src, names[..i + 1]))
         == SumOfSizes(before, BelowNamed(before, src, names[..i])) + Estimate(before, src + [names[i]])
    ensures SumOfSizes(before, BelowNamed(before, src, names[..i + 1])) <= Estimate(before, src)
  {
    hide SumOfSizes, Estimate, BelowNamed, OnlyTouches, Below, Lists, Rooted, SameBelow, Apart;
    ListedOnce(before, src, names, i);
    TouchedApart(before, mid, src, dst);
    SameBelowChild(before, mid, src, names[i]);
    BelowStep(before, src, names, i);
    NamedPartIsBounded(before, src, names, i + 1);
    ApartChildren(src, dst, names[i]);
    EstimateDependsOn(before, mid, src + [names[i]]);
    ChildIsSmaller(before, src, names[i]);
  }

  lemma SameBelowChild(before: Disk, after: Disk, src: Path, n: Name)
    requires SameBelow(before, after, src)
    ensures SameBelow(before, after, src + [n])
  {
  }

  // ---------- moving ----------

  /** src's tree stands at dst as if copied there, and is gone from src. */
  ghost predicate IsMoved(before: Disk, after: Disk, src: Path, dst: Path) {
    forall p :: Lookup(after, p) == if src <= p then None else Overlaid(before, src, dst, p)
  }

  /** Everything that was below src is, with the same content, at the corresponding place below dst. */
  ghost predicate CompleteAt(before: Disk, after: Disk, src: Path, dst: Path) {
    forall p :: src <= p && p in before ==> Lookup(after, dst + p[|src|..]) == Lookup(before, p)
  }

  /** Nothing outside src and dst changed, except that missing folders leading to dst may have been made. */
  ghost predicate OnlyTouchesBoth(before: Disk, after: Disk, src: Path, dst: Path) {
    forall p :: !(src <= p) && !(dst <= p) ==>
      || Lookup(after, p) == Lookup(before, p)
      || (p < dst && Lookup(before, p) == None && Lookup(after, p) == Some(Folder))
  }

  /** Where the things below src end up. */
  function Arrivals(disk: Disk, src: Path, dst: Path): set<Path> {
    set q | q in disk && src <= q :: dst + q[|src|..]
  }

  lemma ArrivesExactly(disk: Disk, src: Path, dst: Path, p: Path)
    ensures p in Arrivals(disk, src, dst) <==> dst <= p && src + p[|dst|..] in disk
  {
    if p in Arrivals(disk, src, dst) {
      var q :| q in disk && src <= q && dst + q[|src|..] == p;
      assert src + p[|dst|..] == q;
    }
    if dst <= p && src + p[|dst|..] in disk {
      var q := src + p[|dst|..];
      assert src <= q && dst + q[|src|..] == p;
    }
  }

  function Renamed(disk: Disk, src: Path, dst: Path): Disk {
    var arrivals := Arrivals(disk, src, dst);
    map p | p in arrivals + (disk.Keys - Below(disk, src)) ::
      if dst <= p && src + p[|dst|..] in disk then disk[src + p[|dst|..]] else if p in disk then disk[p] else Folder
  }

  lemma RenamedLookup(disk: Disk, src: Path, dst: Path, p: Path)
    requires Rooted(disk) && Apart(src, dst) && Below(disk, dst) == {}
    requires dst != [] && Lookup(disk, dst[..|dst| - 1]) == Some(Folder)
    ensures Lookup(Renamed(disk, src, dst), p) == if src <= p then None else Overlaid(disk, src, dst, p)
  {
    ArrivesExactly(disk, src, dst, p);
    assert p !in Below(disk, dst);
    if dst <= p {
      ApartBelow(dst, src, p);
    } else if p < dst {
      ParentChain(disk, dst, p);
      assert p in disk;
    }
    hide Apart, Rooted, Arrivals;
    assert p in Renamed(disk, src, dst) <==> p in Arrivals(disk, src, dst) || (p in disk && !(src <= p));
  }

  lemma RenamedRooted(disk: Disk, after: Disk, src: Path, dst: Path)
    requires Rooted(disk) && Apart(src, dst) && src in disk && Below(disk, dst) == {}
    requires dst != [] && Lookup(disk, dst[..|dst| - 1]) == Some(Folder)
    requires IsMoved(disk, after, src, dst)
    ensures Rooted(after)
  {
    assert Lookup(after, []) == if src <= [] then None else Overlaid(disk, src, dst, []);
    forall p | p in after && p != []
      ensures Lookup(after, p[..|p| - 1]) == Some(Folder)
    {
      if dst <= p {
        ArrivedInFolder(disk, after, src, dst, p);
      } else {
        LeftInFolder(disk, after, src, dst, p);
      }
    }
  }

  lemma ArrivedInFolder(disk: Disk, after: Disk, src: Path, dst: Path, p: Path)
    requires Rooted(disk) && Apart(src, dst) && src in disk && Below(disk, dst) == {}
    requires dst != [] && Lookup(disk, dst[..|dst| - 1]) == Some(Folder)
    requires IsMoved(disk, after, src, dst) && p in after && dst <= p
    ensures Lookup(after, p[..|p| - 1]) == Some(Folder)
  {
    hide Rooted;
    var parent := p[..|p| - 1];
    ApartBelow(dst, src, p);
    assert Lookup(after, p) == Overlaid(disk, src, dst, p);
    assert Lookup(after, parent) == if src <= parent then None else Overlaid(disk, src, dst, parent);
    if p == dst {
      assert parent < dst;
    } else {
      ApartBelow(dst, src, parent);
      assert p !in Below(disk, dst);
      var q := src + p[|dst|..];
      assert q[..|q| - 1] == src + parent[|dst|..];
      ParentIsFolder(disk, q);
    }
  }

  lemma LeftInFolder(disk: Disk, after: Disk, src: Path, dst: Path, p: Path)
    requires Rooted(disk) && Apart(src, dst)
    requires dst != [] && Lookup(disk, dst[..|dst| - 1]) == Some(Folder)
    requires IsMoved(disk, after, src, dst) && p in after && !(dst <= p) && p != []
    ensures Lookup(after, p[..|p| - 1]) == Some(Folder)
  {
    var parent := p[..|p| - 1];
    assert Lookup(after, p) == if src <= p then None else Overlaid(disk, src, dst, p);
    assert Lookup(after, parent) == if src <= parent then None else Overlaid(disk, src, dst, parent);
    if p < dst {
      ParentChain(disk, dst, p);
    }
    assert Lookup(disk, parent) == Some(Folder);
    assert !(src <= parent) && !(dst <= parent);
  }

  lemma RenamedIsMoved(disk: Disk, src: Path, dst: Path)
    requires Rooted(disk) && Apart(src, dst) && src in disk && dst !in disk
    requires dst != [] && Lookup(disk, dst[..|dst| - 1]) == Some(Folder)
    ensures IsMoved(disk, Renamed(disk, src, dst), src, dst) && Rooted(Renamed(disk, src, dst))
    ensures OnlyTouchesBoth(disk, Renamed(disk, src, dst), src, dst)
  {
    hide Renamed, Overlaid, Rooted, Apart;
    var after := Renamed(disk, src, dst);
    ThereIsNothingBelow(disk, dst);
    forall p
      ensures Lookup(after, p) == if src <= p then None else Overlaid(disk, src, dst, p)
    {
      RenamedLookup(disk, src, dst, p);
    }
    RenamedRooted(disk, after, src, dst);
    RenamedTouches(disk, after, src, dst);
  }

  lemma RenamedTouches(disk: Disk, after: Disk, src: Path, dst: Path)
    requires Rooted(disk) && IsMoved(disk, after, src, dst)
    requires dst != [] && Lookup(disk, dst[..|dst| - 1]) == Some(Folder)
    ensures OnlyTouchesBoth(disk, after, src, dst)
  {
    forall p | !(src <= p) && !(dst <= p)
      ensures Lookup(after, p) == Lookup(disk, p)
    {
      if p < dst {
        ParentChain(disk, dst, p);
      }
      assert Lookup(after, p) == Overlaid(disk, src, dst, p);
    }
  }

  lemma MovedIsComplete(before: Disk, after: Disk, src: Path, dst: Path)
    requires Apart(src, dst) && IsMoved(before, after, src, dst)
    ensures CompleteAt(before, after, src, dst)
  {
    forall p | src <= p && p in before
      ensures Lookup(after, dst + p[|src|..]) == Lookup(before, p)
    {
      var q := dst + p[|src|..];
      ApartBelow(dst, src, q);
      assert src + q[|dst|..] == p;
    }
  }

  lemma TouchesOneOfBoth(before: Disk, after: Disk, src: Path, dst: Path)
    requires OnlyTouches(before, after, dst)
    ensures OnlyTouchesBoth(before, after, src, dst)
  {
  }

  lemma TouchesBothTwice(a: Disk, b: Disk, c: Disk, src: Path, dst: Path)
    requires OnlyTouchesBoth(a, b, src, dst) && OnlyTouches(b, c, dst)
    ensures OnlyTouchesBoth(a, c, src, dst)
  {
  }

  lemma SameBelowTwice(a: Disk, b: Disk, c: Disk, src: Path)
    requires SameBelow(a, b, src) && SameBelow(b, c, src)
    ensures SameBelow(a, c, src)
  {
  }

  lemma CopiedThenRemoved(before: Disk, copied: Disk, after: Disk, src: Path, dst: Path)
    requires Apart(src, dst) && IsOverlay(before, copied, src, dst) && OnlyRemoves(copied, after, src)
    requires OnlyTouchesBoth(before, copied, src, dst)
    ensures CompleteAt(before, after, src, dst) && OnlyTouchesBoth(before, after, src, dst)
  {
    forall p | src <= p && p in before
      ensures Lookup(after, dst + p[|src|..]) == Lookup(before, p)
    {
      var q := dst + p[|src|..];
      ApartBelow(dst, src, q);
      assert src + q[|dst|..] == p;
      assert Lookup(copied, q) == Overlaid(before, src, dst, q);
    }
    forall p | !(src <= p) && !(dst <= p)
      ensures || Lookup(after, p) == Lookup(before, p)
              || (p < dst && Lookup(before, p) == None && Lookup(after, p) == Some(Folder))
    {
      assert Lookup(after, p) == Lookup(copied, p);
    }
  }

  lemma CopiedAndRemoved(before: Disk, copied: Disk, after: Disk, src: Path, dst: Path)
    requires IsOverlay(before, copied, src, dst) && Removed(copied, after, src)
    ensures IsMoved(before, after, src, dst)
  {
  }

  /** Every file below src is, with its content, still there or at the corresponding place below dst. */
  ghost predicate NoFileLost(before: Disk, after: Disk, src: Path, dst: Path) {
    forall p :: src <= p && p in before && before[p].File? ==>
      Lookup(after, p) == Some(before[p]) || Lookup(after, dst + p[|src|..]) == Some(before[p])
  }

  lemma NoFileIsLost(before: Disk, after: Disk, src: Path, dst: Path)
    requires SameBelow(before, after, src) || CompleteAt(before, after, src, dst)
    ensures NoFileLost(before, after, src, dst)
  {
  }
}
