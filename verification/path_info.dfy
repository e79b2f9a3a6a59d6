/** `get_path_info`: the size of a path and of everything below it, and the
    number of files below it, computed by walking the tree top-down the way
    `os.walk` does. The file system is an explicit tree; each entry carries
    the size `os.lstat` reports for it; a symbolic link also carries the
    entry it points to. */
module PathInfo {

  /** A directory entry. A symbolic link to a directory is listed among the
      directories of its parent but not descended into (`os.walk` does not
      follow links below the top); a link to anything else is listed among
      the files. */
  datatype Node =
    | File(size: nat)
    | Dir(size: nat, children: seq<Node>)
    | Link(size: nat, target: Node)

  /** The entry a path names once every link is followed, as `os.stat`
      and the top of `os.walk` see it. */
  function Resolve(n: Node): (r: Node)
    ensures !r.Link?
  {
    if n.Link? then Resolve(n.target) else n
  }

  predicate ListedAsDir(n: Node) {
    n.Dir? || (n.Link? && Resolve(n.target).Dir?)
  }

  /** One triple yielded by `os.walk`, reduced to the entry sizes it lists. */
  datatype Step = Step(dirSizes: seq<nat>, fileSizes: seq<nat>)

  function DirSizes(cs: seq<Node>): (r: seq<nat>)
    ensures |r| <= |cs|
  {
    if |cs| == 0 then []
    else (if ListedAsDir(cs[0]) then [cs[0].size] else []) + DirSizes(cs[1..])
  }

  function FileSizes(cs: seq<Node>): (r: seq<nat>)
    ensures |r| <= |cs|
  {
    if |cs| == 0 then []
    else (if ListedAsDir(cs[0]) then [] else [cs[0].size]) + FileSizes(cs[1..])
  }

  /** `os.walk(top)`: the step of `top` itself, then the walks of its
      subdirectories in listing order. A file or a link yields nothing. */
  function Walk(n: Node): seq<Step> {
    match n
    case Dir(_, cs) => [Step(DirSizes(cs), FileSizes(cs))] + WalkAll(cs)
    case _ => []
  }

  function WalkAll(cs: seq<Node>): seq<Step> {
    if |cs| == 0 then [] else Walk(cs[0]) + WalkAll(cs[1..])
  }

  // ---------------------------------------------------------------------
  // The reference quantities, defined on the tree itself.

  /** The sizes of every entry strictly below `n`. */
  function Below(n: Node): nat {
    match n
    case Dir(_, cs) => BelowAll(cs)
    case _ => 0
  }

  function BelowAll(cs: seq<Node>): nat {
    if |cs| == 0 then 0 else cs[0].size + Below(cs[0]) + BelowAll(cs[1..])
  }

  /** The number of non-directory entries strictly below `n`. */
  function Files(n: Node): nat {
    match n
    case Dir(_, cs) => FilesAll(cs)
    case _ => 0
  }

  function FilesAll(cs: seq<Node>): nat {
    if |cs| == 0 then 0
    else (if ListedAsDir(cs[0]) then 0 else 1) + Files(cs[0]) + FilesAll(cs[1..])
  }

  // ---------------------------------------------------------------------
  // Sums over the walk.

  function Sum(xs: seq<nat>): nat {
    if |xs| == 0 then 0 else xs[0] + Sum(xs[1..])
  }

  lemma {:induction false} SumAppend(xs: seq<nat>, ys: seq<nat>)
    ensures Sum(xs + ys) == Sum(xs) + Sum(ys)
  {
    if |xs| > 0 {
      assert (xs + ys)[1..] == xs[1..] + ys;
      SumAppend(xs[1..], ys);
    } else {
      assert xs + ys == ys;
    }
  }

  function StepSize(s: Step): nat {
    Sum(s.dirSizes) + Sum(s.fileSizes)
  }

  function StepSizes(steps: seq<Step>): nat {
    if |steps| == 0 then 0 else StepSize(steps[0]) + StepSizes(steps[1..])
  }

  function StepFiles(steps: seq<Step>): nat {
    if |steps| == 0 then 0 else |steps[0].fileSizes| + StepFiles(steps[1..])
  }

  lemma {:induction false} StepsAppend(a: seq<Step>, b: seq<Step>)
    ensures StepSizes(a + b) == StepSizes(a) + StepSizes(b)
    ensures StepFiles(a + b) == StepFiles(a) + StepFiles(b)
  {
    if |a| > 0 {
      assert (a + b)[1..] == a[1..] + b;
      StepsAppend(a[1..], b);
    } else {
      assert a + b == b;
    }
  }

  /** The listed sizes of a directory's children add up to all their sizes,
      and the files listed are the non-directories. */
  lemma {:induction false} ListingSums(cs: seq<Node>)
    ensures Sum(DirSizes(cs)) + Sum(FileSizes(cs)) == ChildSizes(cs)
    ensures |FileSizes(cs)| == FileChildren(cs)
  {
    if |cs| > 0 {
      ListingSums(cs[1..]);
      var c := cs[0];
      assert Sum([c.size]) == c.size by { assert [c.size][1..] == []; }
      if ListedAsDir(c) {
        assert DirSizes(cs) == [c.size] + DirSizes(cs[1..]);
        assert FileSizes(cs) == [] + FileSizes(cs[1..]) == FileSizes(cs[1..]);
        SumAppend([c.size], DirSizes(cs[1..]));
      } else {
        assert FileSizes(cs) == [c.size] + FileSizes(cs[1..]);
        assert DirSizes(cs) == [] + DirSizes(cs[1..]) == DirSizes(cs[1..]);
        SumAppend([c.size], FileSizes(cs[1..]));
      }
    }
  }

  function ChildSizes(cs: seq<Node>): nat {
    if |cs| == 0 then 0 else cs[0].size + ChildSizes(cs[1..])
  }

  function FileChildren(cs: seq<Node>): nat {
    if |cs| == 0 then 0 else (if ListedAsDir(cs[0]) then 0 else 1) + FileChildren(cs[1..])
  }

  /** Everything below a node is counted exactly once by its walk: the
      listed sizes add up to `Below` and the listed files to `Files`. */
  lemma {:induction false} WalkCounts(n: Node)
    ensures StepSizes(Walk(n)) == Below(n)
    ensures StepFiles(Walk(n)) == Files(n)
    decreases n, 1
  {
    match n
    case Dir(_, cs) =>
      var head := Step(DirSizes(cs), FileSizes(cs));
      StepsAppend([head], WalkAll(cs));
      WalkAllCounts(cs);
      ListingSums(cs);
    case _ =>
  }

  lemma {:induction false} WalkAllCounts(cs: seq<Node>)
    ensures StepSizes(WalkAll(cs)) + ChildSizes(cs) == BelowAll(cs)
    ensures StepFiles(WalkAll(cs)) + FileChildren(cs) == FilesAll(cs)
    decreases cs, 0
  {
    if |cs| > 0 {
      WalkCounts(cs[0]);
      WalkAllCounts(cs[1..]);
      StepsAppend(Walk(cs[0]), WalkAll(cs[1..]));
    }
  }

  // ---------------------------------------------------------------------
  // The algorithm.

  /** The two accumulators of one step: the number of files listed and the
      sum of the listed sizes, files first and then directories. */
  method StepTotals(s: Step) returns (size: nat, files: nat)
    ensures size == StepSize(s) && files == |s.fileSizes|
  {
    files := |s.fileSizes|;
    size := 0;
    var i := 0;
    while i < |s.fileSizes|
      invariant 0 <= i <= |s.fileSizes|
      invariant size + Sum(s.fileSizes[i..]) == Sum(s.fileSizes)
    {
      assert s.fileSizes[i..] == [s.fileSizes[i]] + s.fileSizes[i + 1..];
      size := size + s.fileSizes[i];
      i := i + 1;
    }
    var j := 0;
    while j < |s.dirSizes|
      invariant 0 <= j <= |s.dirSizes|
      invariant size + Sum(s.dirSizes[j..]) == StepSize(s)
    {
      assert s.dirSizes[j..] == [s.dirSizes[j]] + s.dirSizes[j + 1..];
      size := size + s.dirSizes[j];
      j := j + 1;
    }
  }

  /** `get_path_info(path)`: the size of what the path names once links are
      followed plus the size of every entry below it, and the number of
      files below it. A root that is a link is measured as its target; a
      root that is not a directory gives its own size and 0. */
  method GetPathInfo(root: Node) returns (size: nat, count: nat)
    ensures size == Resolve(root).size + Below(Resolve(root))
    ensures count == Files(Resolve(root))
    ensures !root.Link? ==> size == root.size + Below(root) && count == Files(root)
    ensures !Resolve(root).Dir? ==> size == Resolve(root).size && count == 0
  {
    var top := Resolve(root);
    var steps := Walk(top);
    size, count := 0, 0;
    var i := 0;
    while i < |steps|
      invariant 0 <= i <= |steps|
      invariant size + StepSizes(steps[i..]) == StepSizes(steps)
      invariant count + StepFiles(steps[i..]) == StepFiles(steps)
    {
      assert steps[i..] == [steps[i]] + steps[i + 1..];
      StepsAppend([steps[i]], steps[i + 1..]);
      var s, f := StepTotals(steps[i]);
      size, count := size + s, count + f;
      i := i + 1;
    }
    WalkCounts(top);
    size := size + top.size;
  }

  /** Below the top, a link to a directory contributes its own entry size
      but nothing of what it points to, and is not counted as a file. */
  lemma LinkNotFollowed(s: nat, t: nat, u: nat, target: seq<Node>)
    ensures Below(Dir(s, [Link(t, Dir(u, target))])) == t
    ensures Files(Dir(s, [Link(t, Dir(u, target))])) == 0
    ensures Below(Dir(s, [Dir(t, target)])) == t + BelowAll(target)
  {
    var ln := Link(t, Dir(u, target));
    assert [ln][1..] == [];
    assert [Dir(t, target)][1..] == [];
    assert ListedAsDir(ln);
    assert Below(Dir(s, [ln])) == BelowAll([ln]);
    assert Files(Dir(s, [ln])) == FilesAll([ln]);
    assert Below(Dir(s, [Dir(t, target)])) == BelowAll([Dir(t, target)]);
    assert Below(Dir(t, target)) == BelowAll(target);
  }

  /** Below the top, a link to a file is counted as a file of the link's own
      entry size. */
  lemma FileLinkCounted(s: nat, t: nat, u: nat)
    ensures Below(Dir(s, [Link(t, File(u))])) == t
    ensures Files(Dir(s, [Link(t, File(u))])) == 1
  {
    var ln := Link(t, File(u));
    assert [ln][1..] == [];
    assert !ListedAsDir(ln);
    assert Below(Dir(s, [ln])) == BelowAll([ln]);
    assert Files(Dir(s, [ln])) == FilesAll([ln]);
  }
}
