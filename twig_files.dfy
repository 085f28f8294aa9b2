/**
 * `Twig.files`: the files under a twig's source directory, relative to it
 * and sorted, where a directory listed as a git submodule is reported as
 * one entry and not entered.
 *
 * The directory tree is a value; a path is the list of its parts, which is
 * also how `pathlib` orders paths. Submodule paths are absolute, so the walk
 * knows the parts of the source directory.
 */
module TwigFiles {
  import opened Wrappers
  import opened Order

  type Path = seq<string>

  datatype Node = File | Dir(children: seq<Entry>)
  datatype Entry = Entry(name: string, node: Node)

  /** Whether the directory `root + [name]` under `source` is a submodule. */
  predicate IsSubmodule(source: Path, submodules: seq<Path>, root: Path, name: string) {
    source + root + [name] in submodules
  }

  /** The directories of one listing that are submodules, in listing order. */
  function SubmoduleDirs(source: Path, submodules: seq<Path>, root: Path, children: seq<Entry>): (r: seq<Path>)
    ensures forall x :: x in r <==>
      (exists k :: 0 <= k < |children| && children[k].node.Dir? &&
         IsSubmodule(source, submodules, root, children[k].name) && x == root + [children[k].name])
  {
    if children == [] then []
    else
      var rest := SubmoduleDirs(source, submodules, root, children[1..]);
      assert forall k :: 0 < k < |children| ==> children[k] == children[1..][k - 1];
      var e := children[0];
      (if e.node.Dir? && IsSubmodule(source, submodules, root, e.name) then [root + [e.name]] else []) + rest
  }

  /** The files of one listing, in listing order. */
  function FileNames(root: Path, children: seq<Entry>): (r: seq<Path>)
    ensures forall x :: x in r <==>
      (exists k :: 0 <= k < |children| && children[k].node.File? && x == root + [children[k].name])
  {
    if children == [] then []
    else
      var rest := FileNames(root, children[1..]);
      assert forall k :: 0 < k < |children| ==> children[k] == children[1..][k - 1];
      (if children[0].node.File? then [root + [children[0].name]] else []) + rest
  }

  /**
   * `os.walk` from the directory `root` with the listing `children`: the
   * submodule directories, then the files, then the walks of the other
   * directories in listing order.
   */
  function Walk(source: Path, submodules: seq<Path>, root: Path, children: seq<Entry>): seq<Path>
    decreases children, 1
  {
    SubmoduleDirs(source, submodules, root, children) + FileNames(root, children)
      + Deeper(source, submodules, root, children)
  }

  function Deeper(source: Path, submodules: seq<Path>, root: Path, children: seq<Entry>): seq<Path>
    decreases children, 0
  {
    if children == [] then []
    else
      var e := children[0];
      (if e.node.Dir? && !IsSubmodule(source, submodules, root, e.name)
       then Walk(source, submodules, root + [e.name], e.node.children) else [])
        + Deeper(source, submodules, root, children[1..])
  }

  /**
   * The independent reading: the relative path `q` below `root` names a file,
   * or a submodule directory, reached through directories that are not
   * submodules.
   */
  predicate Reaches(source: Path, submodules: seq<Path>, root: Path, children: seq<Entry>, q: Path)
    decreases children, 1
  {
    q != [] && exists k :: 0 <= k < |children| && ReachesVia(source, submodules, root, children, k, q)
  }

  /** `Reaches` through the entry `children[k]`. */
  predicate ReachesVia(source: Path, submodules: seq<Path>, root: Path, children: seq<Entry>, k: nat, q: Path)
    requires k < |children| && q != []
    decreases children, 0
  {
    var e := children[k];
    e.name == q[0] &&
    if |q| == 1 then
      e.node.File? || (e.node.Dir? && IsSubmodule(source, submodules, root, e.name))
    else
      e.node.Dir? && !IsSubmodule(source, submodules, root, e.name) &&
      Reaches(source, submodules, root + [e.name], e.node.children, q[1..])
  }

  /** Everything the walk lists lies below `root` and is reached as `Reaches` says. */
  lemma {:induction false} WalkSound(source: Path, submodules: seq<Path>, root: Path, children: seq<Entry>, x: Path)
    requires x in Walk(source, submodules, root, children)
    ensures |x| > |root| && x[..|root|] == root
    ensures Reaches(source, submodules, root, children, x[|root|..])
    decreases children, 1
  {
    if x in SubmoduleDirs(source, submodules, root, children) || x in FileNames(root, children) {
      var k :| 0 <= k < |children| && x == root + [children[k].name] &&
        (children[k].node.File? || (children[k].node.Dir? && IsSubmodule(source, submodules, root, children[k].name)));
      assert x[..|root|] == root && x[|root|..] == [children[k].name];
      assert ReachesVia(source, submodules, root, children, k, x[|root|..]);
    } else {
      DeeperSound(source, submodules, root, children, x);
    }
  }

  lemma {:induction false} DeeperSound(source: Path, submodules: seq<Path>, root: Path, children: seq<Entry>, x: Path)
    requires x in Deeper(source, submodules, root, children)
    ensures |x| > |root| && x[..|root|] == root
    ensures Reaches(source, submodules, root, children, x[|root|..])
    decreases children, 0
  {
    var e := children[0];
    if e.node.Dir? && !IsSubmodule(source, submodules, root, e.name)
      && x in Walk(source, submodules, root + [e.name], e.node.children)
    {
      var sub := root + [e.name];
      WalkSound(source, submodules, sub, e.node.children, x);
      var q := x[|root|..];
      assert x[..|root|] == sub[..|root|] == root;
      assert q[0] == e.name && q[1..] == x[|sub|..];
      assert ReachesVia(source, submodules, root, children, 0, q);
    } else {
      DeeperSound(source, submodules, root, children[1..], x);
      var q := x[|root|..];
      var k :| 0 <= k < |children[1..]| && ReachesVia(source, submodules, root, children[1..], k, q);
      assert children[k + 1] == children[1..][k];
      assert ReachesVia(source, submodules, root, children, k + 1, q);
    }
  }

  /** Everything `Reaches` describes is listed by the walk. */
  lemma {:induction false} WalkComplete(source: Path, submodules: seq<Path>, root: Path, children: seq<Entry>, q: Path)
    requires Reaches(source, submodules, root, children, q)
    ensures root + q in Walk(source, submodules, root, children)
    decreases children, 1
  {
    var k :| 0 <= k < |children| && ReachesVia(source, submodules, root, children, k, q);
    if |q| == 1 {
      assert root + q == root + [children[k].name];
    } else {
      DeeperComplete(source, submodules, root, children, q, k);
    }
  }

  lemma {:induction false} DeeperComplete(source: Path, submodules: seq<Path>, root: Path, children: seq<Entry>, q: Path, k: nat)
    requires k < |children| && |q| > 1 && children[k].name == q[0]
    requires var e := children[k];
      e.node.Dir? && !IsSubmodule(source, submodules, root, e.name) &&
      Reaches(source, submodules, root + [e.name], e.node.children, q[1..])
    ensures root + q in Deeper(source, submodules, root, children)
    decreases children, 0
  {
    var e := children[0];
    if k == 0 {
      WalkComplete(source, submodules, root + [e.name], e.node.children, q[1..]);
      assert root + [e.name] + q[1..] == root + q;
    } else {
      assert children[1..][k - 1] == children[k];
      DeeperComplete(source, submodules, root, children[1..], q, k - 1);
    }
  }

  /**
   * `Twig.files`: nothing when the twig has no source or does not copy its
   * files, otherwise the walk of the source directory, sorted.
   */
  function Files(source: Option<Path>, copyFiles: bool, tree: seq<Entry>, submodules: seq<Path>): (r: seq<Path>)
    ensures Sorted(r, p => p)
    ensures source.None? || !copyFiles ==> r == []
    ensures source.Some? && copyFiles ==> multiset(r) == multiset(Walk(source.value, submodules, [], tree))
  {
    if source.None? || !copyFiles then []
    else Sort(Walk(source.value, submodules, [], tree), p => p)
  }

  /**
   * A relative path is listed iff it names a file or a submodule directory
   * reached without entering a submodule.
   */
  lemma FilesListed(source: Path, tree: seq<Entry>, submodules: seq<Path>, q: Path)
    ensures q in Files(Some(source), true, tree, submodules) <==> Reaches(source, submodules, [], tree, q)
  {
    var w := Walk(source, submodules, [], tree);
    SortKeepsElements(w, p => p);
    if q in w {
      WalkSound(source, submodules, [], tree, q);
      assert q[0..] == q;
    }
    if Reaches(source, submodules, [], tree, q) {
      WalkComplete(source, submodules, [], tree, q);
      assert [] + q == q;
    }
  }
}
