/**
 * The commands `clean`, `dependencies` and `update` of `nest.__main__`,
 * run against the console of `Ui` and the registry of `Twigs`.
 */
module Commands {
  import opened Wrappers
  import opened Text
  import opened FileSystem
  import Ui
  import TreeLayout
  import Twigs
  import Order
  import Orchestrator

  type Twig = Twigs.Twig

  // ---------------------------------------------------------------------
  // Cleaning

  /** A symbolic link whose target lies below `root`: a path `_links_to` keeps. */
  predicate LinksInto(fs: Fs, p: Path, root: Path) {
    IsSymlink(fs, p) && Below(Readlink(fs, p), root)
  }

  /** A link into `root` whose target is no longer a regular file. */
  predicate Stale(fs: Fs, p: Path, root: Path) {
    LinksInto(fs, p, root) && !IsFile(fs, Readlink(fs, p))
  }

  /** `_links_to(files, root)`: the links into `root` among `files`, in order, each with its target. */
  function LinksTo(fs: Fs, files: seq<Path>, root: Path): (r: seq<(Path, Path)>)
    ensures forall k :: 0 <= k < |r| ==> r[k].0 in files && LinksInto(fs, r[k].0, root) && r[k].1 == Readlink(fs, r[k].0)
  {
    if files == [] then []
    else
      var p := files[|files| - 1];
      LinksTo(fs, files[..|files| - 1], root) + (if LinksInto(fs, p, root) then [(p, Readlink(fs, p))] else [])
  }

  /** Every link into `root` among `files` is kept. */
  lemma {:induction false} LinksToComplete(fs: Fs, files: seq<Path>, root: Path, p: Path)
    requires p in files && LinksInto(fs, p, root)
    ensures exists k :: 0 <= k < |LinksTo(fs, files, root)| && LinksTo(fs, files, root)[k].0 == p
  {
    var n := |files| - 1;
    var before := LinksTo(fs, files[..n], root);
    if files[n] == p {
      assert LinksTo(fs, files, root)[|before|].0 == p;
    } else {
      assert p in files[..n];
      LinksToComplete(fs, files[..n], root, p);
      var k :| 0 <= k < |before| && before[k].0 == p;
      assert LinksTo(fs, files, root)[k] == before[k];
    }
  }

  const CleanHeader := "Cleaning deprecated files"
  const RemoveFailed := "Failed to remove file!"
  const NoTerminal := "Not removing as we are not running in a terminal."
  const YesNo := ["yes", "no"]

  /** The line logged for a link whose target is gone. */
  function RemovedLine(root: Path, target: Path): string
    requires Below(target, root)
  {
    Ui.Item(Ui.Removing(RelativeString(target[|root|..]) + " has been removed"))
  }

  /**
   * What the first paths of `clean` leave behind: only removals, each of a
   * link among `done` into `root` that was not refused and whose target is
   * no file any more.
   */
  predicate CleanedSoFar(fs0: Fs, fs: Fs, done: seq<Path>, root: Path, refused: set<Path>) {
    Shrunk(fs, fs0) &&
    forall p :: p in fs0 && p !in fs ==>
      p in done && p !in refused && LinksInto(fs0, p, root) && !IsFile(fs, Readlink(fs0, p))
  }

  /** One more path of `clean` keeps `CleanedSoFar`. */
  lemma CleanedStep(fs0: Fs, before: Fs, after: Fs, done: seq<Path>, link: Path, root: Path, refused: set<Path>)
    requires CleanedSoFar(fs0, before, done, root, refused)
    requires after == before || (Stale(before, link, root) && link !in refused && after == Remove(before, link))
    ensures CleanedSoFar(fs0, after, done + [link], root, refused)
  {
    forall p | p in fs0 && p !in after
      ensures p in done + [link] && p !in refused && LinksInto(fs0, p, root) && !IsFile(after, Readlink(fs0, p))
    {
      IsFileShrunk(after, before, Readlink(fs0, p));
    }
  }

  /** `CleanedSoFar` holds for a longer list of paths. */
  lemma CleanedWithin(fs0: Fs, fs: Fs, done: seq<Path>, files: seq<Path>, root: Path, refused: set<Path>)
    requires CleanedSoFar(fs0, fs, done, root, refused)
    requires forall p :: p in done ==> p in files
    ensures CleanedSoFar(fs0, fs, files, root, refused)
  { }

  /**
   * `clean(target, force)`: each link among `files` into `root` whose target
   * is no longer a file is reported and, when forced or when the user
   * answers yes, removed. The links are read as the loop reaches them.
   * The operating system refuses to unlink the paths in `refused`: such a
   * failure is logged and the loop goes on.
   *
   * The run ends as `CleanAll` says. Only such links disappear, and the
   * target of each removed link is no file afterwards; when forced every
   * link that was stale is removed; and without a terminal nothing is
   * removed unless forced.
   */
  method Clean(c: Ui.Console, files: seq<Path>, root: Path, force: bool, refused: set<Path>)
    returns (r: Result<(), Ui.UiError>)
    modifies c
    ensures c.level == old(c.level)
    ensures Shrunk(c.fs, old(c.fs))
    ensures forall p :: p in old(c.fs) && p !in c.fs ==>
      p in files && p !in refused && LinksInto(old(c.fs), p, root) && !IsFile(c.fs, Readlink(old(c.fs), p))
    ensures force ==> r.Ok? && forall p :: p in files && Stale(old(c.fs), p, root) && p !in refused ==> p !in c.fs
    ensures !force && !c.tty ==> r.Ok? && c.fs == old(c.fs)
    ensures CleanAll(old(c.fs), files, root, force, c.tty, old(c.input), refused) ==
      if r.Ok? then Ok(Cleaned(c.fs, c.input)) else Err(r.error)
  {
    var mark := c.BeginSection(Some(Ui.Bold(CleanHeader)), false, None);
    ghost var fs0 := c.fs;
    ghost var input0 := c.input;
    for k := 0 to |files|
      invariant CleanAll(fs0, files, root, force, c.tty, input0, refused) ==
        CleanAll(c.fs, files[k..], root, force, c.tty, c.input, refused)
      invariant c.level == old(c.level) + 1
      invariant CleanedSoFar(fs0, c.fs, files[..k], root, refused)
      invariant force ==> forall j :: 0 <= j < k && Stale(fs0, files[j], root) && files[j] !in refused ==> files[j] !in c.fs
    {
      var link := files[k];
      ghost var before := c.fs;
      CleanAllNext(c.fs, files, k, root, force, c.tty, c.input, refused);
      if link in c.fs && Stale(fs0, link, root) {
        IsFileShrunk(c.fs, fs0, Readlink(fs0, link));
      }
      var offered := CleanLink(c, link, root, force, refused);
      if offered.Err? {
        c.EndSection(mark);
        CleanedWithin(fs0, c.fs, files[..k], files, root, refused);
        return offered;
      }
      assert files[..k + 1] == files[..k] + [link];
      CleanedStep(fs0, before, c.fs, files[..k], link, root, refused);
    }
    c.EndSection(mark);
    assert files[..|files|] == files;
    if !force && !c.tty {
      CleanAllOffline(fs0, files, root, input0, refused);
    }
    r := Ok(());
  }

  /**
   * One path of `clean`, as `CleanStep` says: a stale link is reported and
   * removed when forced or when the user answers "yes", unless the removal
   * is refused, which is logged; "no" keeps it, and without a terminal the
   * link is kept and that is logged. Anything else is passed over.
   */
  method CleanLink(c: Ui.Console, link: Path, root: Path, force: bool, refused: set<Path>)
    returns (r: Result<(), Ui.UiError>)
    modifies c
    ensures c.level == old(c.level)
    ensures c.fs == old(c.fs) || (Stale(old(c.fs), link, root) && link !in refused && c.fs == Remove(old(c.fs), link))
    ensures force && Stale(old(c.fs), link, root) && link !in refused ==> r.Ok? && c.fs == Remove(old(c.fs), link)
    ensures force && Stale(old(c.fs), link, root) && link in refused ==>
      r.Ok? && c.fs == old(c.fs) && |c.out| > 0 && c.out[|c.out| - 1] == Ui.Pad(c.level) + RemoveFailed
    ensures force ==> r.Ok?
    ensures r.Err? ==> c.fs == old(c.fs)
    ensures !force && !c.tty ==> r.Ok? && c.fs == old(c.fs)
    ensures !force && !c.tty && Stale(old(c.fs), link, root) ==>
      c.input == old(c.input) && |c.out| > 0 && c.out[|c.out| - 1] == Ui.Pad(c.level) + NoTerminal
    ensures !force && c.tty && Stale(old(c.fs), link, root) ==>
      var answer := Ui.QueryResult(YesNo, old(c.input));
      c.input == Ui.QueryRest(YesNo, old(c.input)) &&
      (r.Err? <==> answer.Err?) &&
      (answer == Ok(Some(0)) && link !in refused ==> c.fs == Remove(old(c.fs), link)) &&
      (answer == Ok(Some(0)) && link in refused ==> c.fs == old(c.fs) && |c.out| > 0 && c.out[|c.out| - 1] == Ui.Pad(c.level) + RemoveFailed) &&
      (answer == Ok(Some(1)) ==> c.fs == old(c.fs))
    ensures !Stale(old(c.fs), link, root) ==>
      r.Ok? && c.fs == old(c.fs) && c.input == old(c.input) && c.out == old(c.out)
    ensures CleanStep(old(c.fs), link, root, force, c.tty, old(c.input), refused) ==
      if r.Ok? then Ok(Cleaned(c.fs, c.input)) else Err(r.error)
  {
    r := Ok(());
    if LinksInto(c.fs, link, root) {
      var target := Readlink(c.fs, link);
      if !IsFile(c.fs, target) {
        c.Log(RemovedLine(root, target));
        var response: Result<Option<nat>, Ui.UiError> := Ok(Some(0));
        if !force {
          response := c.Query("Remove " + AbsoluteString(link) + " from computer?", YesNo);
        }
        if response.Err? {
          return Err(response.error);
        }
        if response.value == Some(0) {
          if link in refused {
            c.Log(RemoveFailed);
          } else {
            c.fs := Remove(c.fs, link);
          }
        } else if response.value.None? {
          c.Log(NoTerminal);
        }
      }
    }
  }

  /** The file system and the replies left after part of `clean`. */
  datatype Cleaned = Cleaned(fs: Fs, replies: seq<string>)

  /**
   * What `clean` does with one path, given the replies to come: a link that
   * is not stale is passed over; a stale one is removed when forced, kept
   * without a terminal, and otherwise removed when the question is answered
   * "yes", unless the operating system refuses.
   */
  function CleanStep(fs: Fs, link: Path, root: Path, force: bool, tty: bool, replies: seq<string>, refused: set<Path>)
    : Result<Cleaned, Ui.UiError>
  {
    if !Stale(fs, link, root) then Ok(Cleaned(fs, replies))
    else if force then Ok(Cleaned(if link in refused then fs else Remove(fs, link), replies))
    else if !tty then Ok(Cleaned(fs, replies))
    else
      var answer :- Ui.QueryResult(YesNo, replies);
      var rest := Ui.QueryRest(YesNo, replies);
      Ok(Cleaned(if answer == Some(0) && link !in refused then Remove(fs, link) else fs, rest))
  }

  /** `clean` over `files`, one path after the other, stopping at the first error. */
  function CleanAll(fs: Fs, files: seq<Path>, root: Path, force: bool, tty: bool, replies: seq<string>, refused: set<Path>)
    : Result<Cleaned, Ui.UiError>
    decreases |files|
  {
    if files == [] then Ok(Cleaned(fs, replies))
    else
      var next :- CleanStep(fs, files[0], root, force, tty, replies, refused);
      CleanAll(next.fs, files[1..], root, force, tty, next.replies, refused)
  }

  /** The remaining run of `clean` from the `k`-th path is its step followed by the rest. */
  lemma CleanAllNext(fs: Fs, files: seq<Path>, k: nat, root: Path, force: bool, tty: bool, replies: seq<string>, refused: set<Path>)
    requires k < |files|
    ensures CleanAll(fs, files[k..], root, force, tty, replies, refused) ==
      var step := CleanStep(fs, files[k], root, force, tty, replies, refused);
      if step.Err? then Err(step.error)
      else CleanAll(step.value.fs, files[k + 1..], root, force, tty, step.value.replies, refused)
  {
    assert files[k..][1..] == files[k + 1..];
  }

  /**
   * `clean` only removes paths, and each path it removes is one of `files`
   * that the operating system does not refuse to unlink, and was a link
   * into `root`.
   */
  lemma {:induction false} CleanAllRemoves(fs: Fs, files: seq<Path>, root: Path, force: bool, tty: bool, replies: seq<string>, refused: set<Path>)
    requires CleanAll(fs, files, root, force, tty, replies, refused).Ok?
    ensures Shrunk(CleanAll(fs, files, root, force, tty, replies, refused).value.fs, fs)
    ensures forall p :: p in fs && p !in CleanAll(fs, files, root, force, tty, replies, refused).value.fs ==>
      p in files && p !in refused && LinksInto(fs, p, root)
    decreases |files|
  {
    if files != [] {
      var next := CleanStep(fs, files[0], root, force, tty, replies, refused).value;
      CleanAllRemoves(next.fs, files[1..], root, force, tty, next.replies, refused);
      forall p | p in fs && p !in CleanAll(fs, files, root, force, tty, replies, refused).value.fs
        ensures p in files && p !in refused && LinksInto(fs, p, root)
      {
        if p in next.fs {
          assert p in files[1..];
          assert LinksInto(next.fs, p, root);
        }
      }
    }
  }

  /** Without a terminal and unforced, `clean` changes nothing and reads no reply. */
  lemma {:induction false} CleanAllOffline(fs: Fs, files: seq<Path>, root: Path, replies: seq<string>, refused: set<Path>)
    ensures CleanAll(fs, files, root, false, false, replies, refused) == Ok(Cleaned(fs, replies))
    decreases |files|
  {
    if files != [] {
      CleanAllOffline(fs, files[1..], root, replies, refused);
    }
  }

  /** A stale link answered "yes", and not refused, is gone when `clean` ends. */
  lemma CleanAllConfirmed(fs: Fs, link: Path, files: seq<Path>, root: Path, replies: seq<string>, refused: set<Path>)
    requires Stale(fs, link, root) && link !in refused
    requires Ui.QueryResult(YesNo, replies) == Ok(Some(0))
    requires CleanAll(fs, [link] + files, root, false, true, replies, refused).Ok?
    ensures link !in CleanAll(fs, [link] + files, root, false, true, replies, refused).value.fs
  {
    var next := CleanStep(fs, link, root, false, true, replies, refused).value;
    assert next.fs == Remove(fs, link);
    assert ([link] + files)[1..] == files;
    CleanAllRemoves(next.fs, files, root, false, true, next.replies, refused);
  }

  // ---------------------------------------------------------------------
  // Dependencies

  /** Every index in `order` is below `n`. */
  predicate Within(order: seq<nat>, n: nat) {
    forall k :: 0 <= k < |order| ==> order[k] < n
  }

  /**
   * `any(d.name == name for d in t.dependencies)` for the twig `t` at `j`:
   * its dependencies are looked up first, which fails when some are unmet.
   */
  function DependsOn(twigs: seq<Twig>, j: nat, name: string): (r: Result<bool, Twigs.DependencyError>)
    requires j < |twigs|
  {
    var deps :- Twigs.Dependencies(twigs, j);
    Ok(AnyNamed(twigs, deps, name))
  }

  /** `any(d.name == name for d in deps)` */
  function AnyNamed(twigs: seq<Twig>, deps: seq<nat>, name: string): bool
    requires Within(deps, |twigs|)
  {
    if deps == [] then false
    else twigs[deps[0]].name == name || AnyNamed(twigs, deps[1..], name)
  }

  /** Some dependency in `deps` is named `name`. */
  lemma {:induction false} AnyNamedMeaning(twigs: seq<Twig>, deps: seq<nat>, name: string)
    requires Within(deps, |twigs|)
    ensures AnyNamed(twigs, deps, name) <==> exists k :: 0 <= k < |deps| && twigs[deps[k]].name == name
    decreases |deps|
  {
    if deps != [] {
      AnyNamedMeaning(twigs, deps[1..], name);
      if exists k :: 0 <= k < |deps| && twigs[deps[k]].name == name {
        var k :| 0 <= k < |deps| && twigs[deps[k]].name == name;
        if k > 0 {
          assert deps[1..][k - 1] == deps[k];
        }
      }
      if AnyNamed(twigs, deps[1..], name) {
        var k :| 0 <= k < |deps[1..]| && twigs[deps[1..][k]].name == name;
        assert deps[k + 1] == deps[1..][k];
      }
    }
  }

  /** A twig depends on `name` iff it lists it, once its dependencies are all met. */
  lemma DependsOnMeaning(twigs: seq<Twig>, j: nat, name: string)
    requires j < |twigs|
    ensures var d := Twigs.Dependencies(twigs, j);
      (d.Ok? ==> DependsOn(twigs, j, name) == Ok(name in twigs[j].dependencies)) &&
      (d.Err? ==> DependsOn(twigs, j, name) == Err(d.error))
  {
    Twigs.DependenciesMeaning(twigs, j);
    var d := Twigs.Dependencies(twigs, j);
    if d.Ok? {
      AnyNamedMeaning(twigs, d.value, name);
    }
  }

  /**
   * `leaves` with `invert`: the twigs, in registration order from `from`
   * on, that list `name` among their dependencies; the first twig whose
   * dependencies cannot be looked up fails it.
   */
  function Dependents(twigs: seq<Twig>, name: string, from: nat): (r: Result<seq<nat>, Twigs.DependencyError>)
    requires from <= |twigs|
    decreases |twigs| - from
  {
    if from == |twigs| then Ok([])
    else
      var here :- DependsOn(twigs, from, name);
      var rest :- Dependents(twigs, name, from + 1);
      Ok(if here then [from] + rest else rest)
  }

  /** The dependents are registered twigs from `from` on. */
  lemma {:induction false} DependentsWithin(twigs: seq<Twig>, name: string, from: nat)
    requires from <= |twigs|
    ensures var r := Dependents(twigs, name, from);
      r.Ok? ==> forall k :: 0 <= k < |r.value| ==> from <= r.value[k] < |twigs|
    decreases |twigs| - from
  {
    if from < |twigs| && Dependents(twigs, name, from).Ok? {
      DependentsWithin(twigs, name, from + 1);
      var rest := Dependents(twigs, name, from + 1).value;
      var r := Dependents(twigs, name, from).value;
      assert r == rest || r == [from] + rest;
    }
  }

  /** Every twig from `from` on has all its dependencies met. */
  ghost predicate AllMet(twigs: seq<Twig>, from: nat) {
    forall j :: from <= j < |twigs| ==> Twigs.Dependencies(twigs, j).Ok?
  }

  /**
   * Looking up the dependents fails iff some twig from `from` on has unmet
   * dependencies.
   */
  lemma {:induction false} DependentsFail(twigs: seq<Twig>, name: string, from: nat)
    requires from <= |twigs|
    ensures Dependents(twigs, name, from).Ok? <==> AllMet(twigs, from)
    decreases |twigs| - from
  {
    if from < |twigs| {
      DependentsFail(twigs, name, from + 1);
      DependsOnMeaning(twigs, from, name);
      if AllMet(twigs, from) {
        assert Twigs.Dependencies(twigs, from).Ok?;
        assert AllMet(twigs, from + 1);
      } else {
        var j :| from <= j < |twigs| && Twigs.Dependencies(twigs, j).Err?;
        if j > from {
          assert !AllMet(twigs, from + 1);
        }
      }
    } else {
      assert AllMet(twigs, from);
    }
  }

  /** A failed lookup of the dependents carries the error of some twig from `from` on. */
  lemma {:induction false} DependentsError(twigs: seq<Twig>, name: string, from: nat)
    requires from <= |twigs|
    ensures Dependents(twigs, name, from).Err? ==>
      exists j :: from <= j < |twigs| && Twigs.Dependencies(twigs, j) == Err(Dependents(twigs, name, from).error)
    decreases |twigs| - from
  {
    if from < |twigs| && Dependents(twigs, name, from).Err? {
      DependsOnMeaning(twigs, from, name);
      if Twigs.Dependencies(twigs, from).Err? {
        assert Twigs.Dependencies(twigs, from) == Err(Dependents(twigs, name, from).error);
      } else {
        DependentsError(twigs, name, from + 1);
        var j :| from + 1 <= j < |twigs| && Twigs.Dependencies(twigs, j) == Err(Dependents(twigs, name, from + 1).error);
        assert Twigs.Dependencies(twigs, j) == Err(Dependents(twigs, name, from).error);
      }
    }
  }

  /** The dependents are exactly the twigs from `from` on naming `name` as a dependency. */
  lemma {:induction false} DependentsMembers(twigs: seq<Twig>, name: string, from: nat)
    requires from <= |twigs|
    ensures Dependents(twigs, name, from).Ok? ==>
      forall j :: j in Dependents(twigs, name, from).value <==> from <= j < |twigs| && name in twigs[j].dependencies
    decreases |twigs| - from
  {
    if from < |twigs| {
      DependentsMembers(twigs, name, from + 1);
      DependsOnMeaning(twigs, from, name);
    }
  }

  /** `leaves`: the twigs below the twig at `i` in the tree. */
  function Leaves(twigs: seq<Twig>, i: nat, invert: bool): (r: Result<seq<nat>, Twigs.DependencyError>)
    requires i < |twigs|
    ensures r.Ok? ==> forall k :: 0 <= k < |r.value| ==> r.value[k] < |twigs|
  {
    if invert then DependentsWithin(twigs, twigs[i].name, 0); Dependents(twigs, twigs[i].name, 0)
    else Twigs.Dependencies(twigs, i)
  }

  /**
   * The tree `tree` walks from the twig at `i`. Python gives up on a deep
   * (or cyclic) tree once its recursion limit is reached; `depth` is that
   * limit here.
   */
  function DependencyTree(twigs: seq<Twig>, i: nat, invert: bool, depth: nat): (r: Result<TreeLayout.Node<Twig>, Twigs.DependencyError>)
    requires i < |twigs|
    decreases depth, 0
  {
    if depth == 0 then Err(Twigs.RecursionLimit)
    else
      var children :- Leaves(twigs, i, invert);
      var subtrees :- Forest(twigs, children, invert, depth - 1);
      Ok(TreeLayout.Node(twigs[i], subtrees))
  }

  /** The trees of the twigs at `order`, or the first error met. */
  function Forest(twigs: seq<Twig>, order: seq<nat>, invert: bool, depth: nat): (r: Result<seq<TreeLayout.Node<Twig>>, Twigs.DependencyError>)
    requires Within(order, |twigs|)
    ensures r.Ok? ==> |r.value| == |order|
    decreases depth, 1, |order|
  {
    if order == [] then Ok([])
    else
      var n := |order| - 1;
      var init :- Forest(twigs, order[..n], invert, depth);
      var last :- DependencyTree(twigs, order[n], invert, depth);
      Ok(init + [last])
  }

  /** One node below another: a dependency, or with `invert` a dependent. */
  predicate Edge(parent: Twig, child: Twig, invert: bool) {
    if invert then parent.name in child.dependencies else child.name in parent.dependencies
  }

  /** Every node of the tree is a registered twig, and every child is joined to its parent by an edge. */
  predicate Linked(twigs: seq<Twig>, n: TreeLayout.Node<Twig>, invert: bool)
    decreases n
  {
    n.item in twigs &&
    forall c :: c in n.children ==> Edge(n.item, c.item, invert) && Linked(twigs, c, invert)
  }

  /** The trees are those of the twigs at `order`, one each and in order, and each is linked. */
  predicate Shaped(twigs: seq<Twig>, order: seq<nat>, trees: seq<TreeLayout.Node<Twig>>, invert: bool)
    requires Within(order, |twigs|)
    decreases |order|
  {
    |trees| == |order| &&
    (order != [] ==>
      var n := |order| - 1;
      trees[n].item == twigs[order[n]] && Linked(twigs, trees[n], invert) &&
      Shaped(twigs, order[..n], trees[..n], invert))
  }

  /** The `k`th tree of a shaped forest is that of the `k`th twig. */
  lemma {:induction false} ShapedAt(twigs: seq<Twig>, order: seq<nat>, trees: seq<TreeLayout.Node<Twig>>, invert: bool, k: nat)
    requires Within(order, |twigs|) && Shaped(twigs, order, trees, invert) && k < |order|
    ensures trees[k].item == twigs[order[k]] && Linked(twigs, trees[k], invert)
    decreases |order|
  {
    var n := |order| - 1;
    if k < n {
      ShapedAt(twigs, order[..n], trees[..n], invert, k);
    }
  }

  /**
   * A tree that could be built has the twig at `i` at its root, the trees
   * of the twig's leaves as its children in order, and an edge between
   * every parent and child.
   */
  lemma {:induction false} DependencyTreeShape(twigs: seq<Twig>, i: nat, invert: bool, depth: nat)
    requires i < |twigs|
    ensures var r := DependencyTree(twigs, i, invert, depth);
      r.Ok? ==>
        r.value.item == twigs[i] && Linked(twigs, r.value, invert) &&
        Leaves(twigs, i, invert).Ok? && Shaped(twigs, Leaves(twigs, i, invert).value, r.value.children, invert)
    decreases depth, 0
  {
    var r := DependencyTree(twigs, i, invert, depth);
    if r.Ok? {
      var leaves := Leaves(twigs, i, invert);
      var forest := Forest(twigs, leaves.value, invert, depth - 1);
      assert depth > 0 && leaves.Ok? && forest.Ok? && r.value == TreeLayout.Node(twigs[i], forest.value);
      ForestShape(twigs, leaves.value, invert, depth - 1);
      assert Shaped(twigs, leaves.value, forest.value, invert);
      ChildrenLinked(twigs, i, invert, leaves.value, forest.value);
      NodeLinked(twigs, twigs[i], forest.value, invert);
    }
  }

  /** A twig with linked subtrees hanging by edges is linked. */
  lemma NodeLinked(twigs: seq<Twig>, item: Twig, subtrees: seq<TreeLayout.Node<Twig>>, invert: bool)
    requires item in twigs
    requires forall c :: c in subtrees ==> Edge(item, c.item, invert) && Linked(twigs, c, invert)
    ensures Linked(twigs, TreeLayout.Node(item, subtrees), invert)
  {
  }

  /** Trees built for the leaves of a twig hang below it by an edge each. */
  lemma ChildrenLinked(twigs: seq<Twig>, i: nat, invert: bool, children: seq<nat>, subtrees: seq<TreeLayout.Node<Twig>>)
    requires i < |twigs| && Leaves(twigs, i, invert).Ok? && children == Leaves(twigs, i, invert).value
    requires Shaped(twigs, children, subtrees, invert)
    ensures forall c :: c in subtrees ==> Edge(twigs[i], c.item, invert) && Linked(twigs, c, invert)
  {
    forall c | c in subtrees
      ensures Edge(twigs[i], c.item, invert) && Linked(twigs, c, invert)
    {
      var k :| 0 <= k < |subtrees| && subtrees[k] == c;
      ShapedAt(twigs, children, subtrees, invert, k);
      LeafEdge(twigs, i, invert, children[k]);
    }
  }

  /** A forest that could be built holds the tree of each twig at `order`, in order. */
  lemma {:induction false} ForestShape(twigs: seq<Twig>, order: seq<nat>, invert: bool, depth: nat)
    requires Within(order, |twigs|)
    ensures var r := Forest(twigs, order, invert, depth);
      r.Ok? ==> Shaped(twigs, order, r.value, invert)
    decreases depth, 1, |order|
  {
    var r := Forest(twigs, order, invert, depth);
    if order != [] && r.Ok? {
      var n := |order| - 1;
      ForestShape(twigs, order[..n], invert, depth);
      DependencyTreeShape(twigs, order[n], invert, depth);
      var init := Forest(twigs, order[..n], invert, depth).value;
      assert r.value == init + [DependencyTree(twigs, order[n], invert, depth).value];
      assert r.value[..n] == init;
    }
  }

  /** A leaf of a twig is joined to it by an edge. */
  lemma LeafEdge(twigs: seq<Twig>, i: nat, invert: bool, j: nat)
    requires i < |twigs| && Leaves(twigs, i, invert).Ok? && j in Leaves(twigs, i, invert).value
    ensures Edge(twigs[i], twigs[j], invert)
  {
    if invert {
      DependentsMembers(twigs, twigs[i].name, 0);
    } else {
      Twigs.DependenciesMeaning(twigs, i);
    }
  }

  const DependenciesTitle := "Dependencies for twigs:"
  const DependentsTitle := "Dependents for twigs:"

  /** `string(level, twig)`: the root bold as an item, the others as ignored. */
  function Show(level: nat, t: Twig): string {
    if level == 0 then Ui.Item(Ui.Bold(t.name)) else Ui.Ignoring(t.name)
  }

  function NameKey(twigs: seq<Twig>): nat -> seq<string> {
    (i: nat) => if i < |twigs| then [twigs[i].name] else []
  }

  function Range(n: nat): (r: seq<nat>)
    ensures |r| == n && forall k :: 0 <= k < n ==> r[k] == k
  {
    if n == 0 then [] else Range(n - 1) + [n - 1]
  }

  /** The twigs to show: those asked for, or else every twig sorted by name. */
  function Roots(twigs: seq<Twig>, selected: seq<nat>): (r: seq<nat>)
    requires Within(selected, |twigs|)
    ensures Within(r, |twigs|)
    ensures selected != [] ==> r == selected
    ensures selected == [] ==>
      Order.Sorted(r, NameKey(twigs)) && multiset(r) == multiset(Range(|twigs|))
  {
    if selected != [] then selected
    else
      var r := Order.Sort<nat>(Range(|twigs|), NameKey(twigs));
      forall k | 0 <= k < |r| ensures r[k] < |twigs| {
        assert r[k] in multiset(Range(|twigs|));
      }
      r
  }

  /** The lines of the trees one after the other. */
  function ForestLines(columns: int, level: int, trees: seq<TreeLayout.Node<Twig>>): seq<string> {
    if trees == [] then []
    else
      var n := |trees| - 1;
      ForestLines(columns, level, trees[..n]) + Ui.TreeLines(columns, level, TreeLayout.Layout(trees[n]), Show)
  }

  /**
   * `dependencies(invert, twigs)`: the title, then the tree of each twig
   * shown; the first twig whose tree cannot be built stops the command with
   * its error, after the trees before it.
   */
  method ShowDependencies(c: Ui.Console, twigs: seq<Twig>, selected: seq<nat>, invert: bool, depth: nat)
    returns (r: Result<(), Twigs.DependencyError>)
    requires Within(selected, |twigs|)
    modifies c
    ensures c.level == old(c.level) && c.input == old(c.input) && c.fs == old(c.fs)
    ensures var forest := Forest(twigs, Roots(twigs, selected), invert, depth);
      forest.Ok? ==>
        r.Ok? &&
        c.out == old(c.out) + Ui.HeaderLines(old(c.headers))
                 + [Ui.Pad(c.level) + Ui.Bold(if invert then DependentsTitle else DependenciesTitle)]
                 + ForestLines(c.columns, c.level, forest.value)
    ensures var forest := Forest(twigs, Roots(twigs, selected), invert, depth);
      forest.Err? ==> r == Err(forest.error)
  {
    c.Log(Ui.Bold(if invert then DependentsTitle else DependenciesTitle));
    r := ShowTrees(c, twigs, Roots(twigs, selected), invert, depth);
  }

  /** `ui.tree` for each twig at `roots` in turn, stopping at the first tree that cannot be built. */
  method ShowTrees(c: Ui.Console, twigs: seq<Twig>, roots: seq<nat>, invert: bool, depth: nat)
    returns (r: Result<(), Twigs.DependencyError>)
    requires Within(roots, |twigs|) && c.headers == []
    modifies c
    ensures c.level == old(c.level) && c.input == old(c.input) && c.fs == old(c.fs)
    ensures var forest := Forest(twigs, roots, invert, depth);
      forest.Ok? ==> r.Ok? && c.out == old(c.out) + ForestLines(c.columns, c.level, forest.value)
    ensures var forest := Forest(twigs, roots, invert, depth);
      forest.Err? ==> r == Err(forest.error)
  {
    ghost var shown := [];
    for k := 0 to |roots|
      invariant c.level == old(c.level) && c.input == old(c.input) && c.fs == old(c.fs) && c.headers == []
      invariant Forest(twigs, roots[..k], invert, depth) == Ok(shown)
      invariant c.out == old(c.out) + ForestLines(c.columns, c.level, shown)
    {
      ForestStep(twigs, roots, invert, depth, k);
      var tree := DependencyTree(twigs, roots[k], invert, depth);
      if tree.Err? {
        ForestStops(twigs, roots, invert, depth, k + 1);
        return Err(tree.error);
      }
      ShowTree(c, tree.value, old(c.out), shown);
      shown := shown + [tree.value];
    }
    assert roots[..|roots|] == roots;
    r := Ok(());
  }

  /** `ui.tree` of one more tree, after the trees in `shown`. */
  method ShowTree(c: Ui.Console, tree: TreeLayout.Node<Twig>, ghost before: seq<string>, ghost shown: seq<TreeLayout.Node<Twig>>)
    requires c.headers == [] && c.out == before + ForestLines(c.columns, c.level, shown)
    modifies c
    ensures c.level == old(c.level) && c.input == old(c.input) && c.fs == old(c.fs) && c.headers == []
    ensures c.out == before + ForestLines(c.columns, c.level, shown + [tree])
  {
    c.Tree(tree, Show);
    ForestLinesStep(c.columns, c.level, shown, tree);
  }

  /** The lines of one more tree follow those of the trees before it. */
  lemma ForestLinesStep(columns: int, level: int, trees: seq<TreeLayout.Node<Twig>>, t: TreeLayout.Node<Twig>)
    ensures ForestLines(columns, level, trees + [t]) ==
      ForestLines(columns, level, trees) + Ui.TreeLines(columns, level, TreeLayout.Layout(t), Show)
  {
    assert (trees + [t])[..|trees|] == trees;
  }

  /** The forest of one more twig. */
  lemma ForestStep(twigs: seq<Twig>, order: seq<nat>, invert: bool, depth: nat, k: nat)
    requires Within(order, |twigs|) && k < |order|
    requires Forest(twigs, order[..k], invert, depth).Ok?
    ensures Within(order[..k + 1], |twigs|)
    ensures var f := Forest(twigs, order[..k + 1], invert, depth);
      var t := DependencyTree(twigs, order[k], invert, depth);
      (t.Ok? ==> f == Ok(Forest(twigs, order[..k], invert, depth).value + [t.value])) &&
      (t.Err? ==> f == Err(t.error))
  {
    var p := order[..k + 1];
    assert p[..|p| - 1] == order[..k] && p[|p| - 1] == order[k];
  }

  /** Once a prefix of the twigs fails, so does the whole, with the same error. */
  lemma {:induction false} ForestStops(twigs: seq<Twig>, order: seq<nat>, invert: bool, depth: nat, k: nat)
    requires Within(order, |twigs|) && k <= |order|
    requires Forest(twigs, order[..k], invert, depth).Err?
    ensures Forest(twigs, order, invert, depth) == Forest(twigs, order[..k], invert, depth)
    decreases |order| - k
  {
    if k < |order| {
      var p := order[..k + 1];
      assert p[..|p| - 1] == order[..k];
      ForestStops(twigs, order, invert, depth, k + 1);
    } else {
      assert order[..k] == order;
    }
  }
}
