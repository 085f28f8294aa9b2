/**
 * `initialize` and `build` of `nest.__main__`: which enabled twig claims
 * which user file, and the order in which `build` removes, installs, links
 * and completes the twigs, recorded as a trace of steps.
 *
 * Whether a twig is enabled and whether it is present are inputs given
 * beside the list of twigs: `enabled[i]` and `present[i]` belong to
 * `twigs[i]`.
 */
module Orchestrator {
  import opened Wrappers
  import opened Text
  import opened Dicts
  import Twigs
  import Ui

  type Twig = Twigs.Twig

  // ---------------------------------------------------------------------
  // Duplicate user files

  /** The pairs `(t.name, p)` for one twig `t` and its user files `p`. */
  function ClaimsOf(name: string, files: seq<string>): (r: seq<(string, string)>)
    ensures |r| == |files|
    ensures forall k :: 0 <= k < |files| ==> r[k] == (name, files[k])
  {
    if files == [] then [] else ClaimsOf(name, files[..|files| - 1]) + [(name, files[|files| - 1])]
  }

  /** `((t, p) for t in enabled_twigs for p in t.user_files)` */
  function Claims(twigs: seq<Twig>, enabled: seq<bool>): seq<(string, string)>
    requires |enabled| == |twigs|
  {
    if twigs == [] then []
    else
      var n := |twigs| - 1;
      Claims(twigs[..n], enabled[..n]) + (if enabled[n] then ClaimsOf(twigs[n].name, twigs[n].userFiles) else [])
  }

  /** The twigs claiming `path`, once per claim, in claim order. */
  function Claimants(claims: seq<(string, string)>, path: string): seq<string> {
    if claims == [] then []
    else
      var n := |claims| - 1;
      Claimants(claims[..n], path) + (if claims[n].1 == path then [claims[n].0] else [])
  }

  /** The dictionary `files` after the loop has seen `claims`. */
  function FileTable(claims: seq<(string, string)>): Dict<seq<string>> {
    if claims == [] then []
    else
      var n := |claims| - 1;
      var files := FileTable(claims[..n]);
      var (name, path) := claims[n];
      Put(files, path, Get(files, path).GetOr([]) + [name])
  }

  lemma FileTableStep(claims: seq<(string, string)>, k: nat)
    requires k < |claims|
    ensures FileTable(claims[..k + 1]) ==
      Put(FileTable(claims[..k]), claims[k].1, Get(FileTable(claims[..k]), claims[k].1).GetOr([]) + [claims[k].0])
  {
    assert claims[..k + 1][..k] == claims[..k];
  }

  /** `files` maps each claimed path to exactly the twigs claiming it. */
  lemma {:induction false} FileTableClaimants(claims: seq<(string, string)>, path: string)
    ensures Get(FileTable(claims), path) == if Claimants(claims, path) == [] then None else Some(Claimants(claims, path))
  {
    if claims != [] {
      var n := |claims| - 1;
      var (name, p) := claims[n];
      var files := FileTable(claims[..n]);
      FileTableClaimants(claims[..n], path);
      var before := Claimants(claims[..n], path);
      assert FileTable(claims) == Put(files, p, Get(files, p).GetOr([]) + [name]);
      if p == path {
        assert Get(files, path).GetOr([]) == before;
        assert Claimants(claims, path) == before + [name];
      } else {
        assert Claimants(claims, path) == before;
      }
    }
  }

  lemma {:induction false} FileTableUnique(claims: seq<(string, string)>)
    ensures UniqueKeys(FileTable(claims))
  {
    if claims != [] {
      var n := |claims| - 1;
      var files := FileTable(claims[..n]);
      FileTableUnique(claims[..n]);
      PutUnique(files, claims[n].1, Get(files, claims[n].1).GetOr([]) + [claims[n].0]);
    }
  }

  /** `{p: ts for (p, ts) in files.items() if len(ts) > 1}` */
  function Duplicates(files: Dict<seq<string>>): Dict<seq<string>> {
    if files == [] then []
    else (if |files[0].1| > 1 then [files[0]] else []) + Duplicates(files[1..])
  }

  lemma UniqueTail(files: Dict<seq<string>>)
    requires files != [] && UniqueKeys(files)
    ensures UniqueKeys(files[1..]) && files[0].0 !in Keys(files[1..])
  {
    var ks := Keys(files);
    assert Keys(files[1..]) == ks[1..];
    forall i, j | 0 <= i < j < |ks| - 1
      ensures ks[1..][i] != ks[1..][j]
    {
      assert ks[i + 1] != ks[j + 1];
    }
    forall j | 0 <= j < |ks| - 1
      ensures ks[1..][j] != ks[0]
    {
      assert ks[0] != ks[j + 1];
    }
  }

  lemma {:induction false} DuplicatesGet(files: Dict<seq<string>>, path: string)
    requires UniqueKeys(files)
    ensures Get(Duplicates(files), path) ==
      if Get(files, path).Some? && |Get(files, path).value| > 1 then Get(files, path) else None
  {
    if files != [] {
      var e, rest := files[0], files[1..];
      UniqueTail(files);
      DuplicatesGet(rest, path);
      var dup := Duplicates(rest);
      if e.0 == path {
        assert Get(rest, path).None?;
        assert Get(files, path) == Some(e.1);
        if |e.1| > 1 {
          assert Duplicates(files) == [e] + dup;
          assert Get([e] + dup, path) == Some(e.1);
        } else {
          assert Duplicates(files) == dup;
          assert Get(dup, path).None?;
        }
      } else {
        assert Get(files, path) == Get(rest, path);
        if |e.1| > 1 {
          assert Duplicates(files) == [e] + dup;
          assert ([e] + dup)[1..] == dup;
          assert Get([e] + dup, path) == Get(dup, path);
        } else {
          assert Duplicates(files) == dup;
        }
      }
    }
  }

  /**
   * A path is reported as a duplicate iff more than one enabled twig
   * claims it (a twig listing it twice counts twice), with exactly the
   * claiming twigs.
   */
  lemma DuplicatesMeaning(claims: seq<(string, string)>, path: string)
    ensures Get(Duplicates(FileTable(claims)), path) ==
      if |Claimants(claims, path)| > 1 then Some(Claimants(claims, path)) else None
  {
    FileTableClaimants(claims, path);
    FileTableUnique(claims);
    DuplicatesGet(FileTable(claims), path);
  }

  /** Some path has more than one claimant. */
  ghost predicate Duplicated(claims: seq<(string, string)>) {
    exists p :: |Claimants(claims, p)| > 1
  }

  /** There are duplicates iff some path has more than one claimant. */
  lemma DuplicatesExist(claims: seq<(string, string)>)
    ensures Duplicates(FileTable(claims)) != [] <==> Duplicated(claims)
  {
    var d := Duplicates(FileTable(claims));
    if d != [] {
      DuplicatesMeaning(claims, d[0].0);
      assert d[0].0 in Keys(d) by { assert Keys(d)[0] == d[0].0; }
    }
    if Duplicated(claims) {
      var p :| |Claimants(claims, p)| > 1;
      DuplicatesMeaning(claims, p);
    }
  }

  /** `'{} for twigs {}'.format(p, ', '.join(ts))` for each duplicate. */
  function Described(d: Dict<seq<string>>): (r: seq<string>)
    ensures |r| == |d|
    ensures forall k :: 0 <= k < |d| ==> r[k] == d[k].0 + " for twigs " + Join(", ", d[k].1)
  {
    if d == [] then [] else [d[0].0 + " for twigs " + Join(", ", d[0].1)] + Described(d[1..])
  }

  function DuplicateMessage(d: Dict<seq<string>>): string {
    "Duplicate files detected: " + Join("; ", Described(d))
  }

  /**
   * The duplicate check of `initialize`: an error iff some user file is
   * claimed more than once by enabled twigs, naming each such file with
   * its twigs.
   */
  method Initialize(twigs: seq<Twig>, enabled: seq<bool>) returns (r: Result<(), string>)
    requires |enabled| == |twigs|
    ensures r.Err? <==> Duplicated(Claims(twigs, enabled))
    ensures r.Err? ==> r.error == DuplicateMessage(Duplicates(FileTable(Claims(twigs, enabled))))
  {
    var claims := Claims(twigs, enabled);
    var files := CollectFiles(claims);
    var duplicates := Duplicates(files);
    DuplicatesExist(claims);
    if duplicates != [] {
      return Err(DuplicateMessage(duplicates));
    }
    return Ok(());
  }

  /** The loop of `initialize` filling `files` from the claims. */
  method CollectFiles(claims: seq<(string, string)>) returns (files: Dict<seq<string>>)
    ensures files == FileTable(claims)
  {
    files := [];
    for k := 0 to |claims|
      invariant files == FileTable(claims[..k])
    {
      var (name, path) := claims[k];
      var ts := Get(files, path).GetOr([]);
      FileTableStep(claims, k);
      files := Put(files, path, ts + [name]);
    }
    assert claims[..|claims|] == claims;
  }

  // ---------------------------------------------------------------------
  // Build

  /** What `build` does, in order. */
  datatype Step =
    | RemoveTwig(twig: string)                                // `twig.remove()`
    | UnlinkFile(twig: string, rel: string, system: bool)    // `ui.unlink` of a user or a system file
    | InstallTwig(twig: string)                               // `twig.install()`
    | LinkFile(twig: string, rel: string, system: bool)      // `ui.link` of a user or a system file
    | CompleteTwig(twig: string)                              // `twig.complete()`

  datatype Kind = Removal | Unlinking | Installation | Linking | Completion

  function KindOf(s: Step): Kind {
    match s
    case RemoveTwig(_) => Removal
    case UnlinkFile(_, _, _) => Unlinking
    case InstallTwig(_) => Installation
    case LinkFile(_, _, _) => Linking
    case CompleteTwig(_) => Completion
  }

  /** The indices whose flag is set, ascending: `[t for t in TWIGS if …]`. */
  function Indices(flags: seq<bool>): (r: seq<nat>)
    ensures forall k :: 0 <= k < |r| ==> r[k] < |flags| && flags[r[k]]
  {
    if flags == [] then []
    else
      var n := |flags| - 1;
      Indices(flags[..n]) + (if flags[n] then [n] else [])
  }

  /** Every index whose flag is set is listed, and the list ascends. */
  lemma {:induction false} IndicesComplete(flags: seq<bool>)
    ensures forall i :: 0 <= i < |flags| && flags[i] ==> i in Indices(flags)
    ensures forall a, b :: 0 <= a < b < |Indices(flags)| ==> Indices(flags)[a] < Indices(flags)[b]
  {
    if flags != [] {
      var n := |flags| - 1;
      IndicesComplete(flags[..n]);
      var r := Indices(flags[..n]);
      assert forall i :: 0 <= i < n ==> flags[..n][i] == flags[i];
    }
  }

  /** `reversed(s)` */
  function Reversed<T>(s: seq<T>): (r: seq<T>)
    ensures |r| == |s|
    ensures forall k :: 0 <= k < |s| ==> r[k] == s[|s| - 1 - k]
  {
    if s == [] then [] else [s[|s| - 1]] + Reversed(s[..|s| - 1])
  }

  function Negated(flags: seq<bool>): (r: seq<bool>)
    ensures |r| == |flags| && forall k :: 0 <= k < |flags| ==> r[k] == !flags[k]
  {
    seq(|flags|, k requires 0 <= k < |flags| => !flags[k])
  }

  function UnlinkSteps(name: string, files: seq<string>, system: bool): (r: seq<Step>)
    ensures |r| == |files| && forall k :: 0 <= k < |files| ==> r[k] == UnlinkFile(name, files[k], system)
  {
    if files == [] then [] else UnlinkSteps(name, files[..|files| - 1], system) + [UnlinkFile(name, files[|files| - 1], system)]
  }

  function LinkSteps(name: string, files: seq<string>, system: bool): (r: seq<Step>)
    ensures |r| == |files| && forall k :: 0 <= k < |files| ==> r[k] == LinkFile(name, files[k], system)
  {
    if files == [] then [] else LinkSteps(name, files[..|files| - 1], system) + [LinkFile(name, files[|files| - 1], system)]
  }

  /** A disabled twig: removed, then its user files and its system files unlinked. */
  function Teardown(t: Twig): seq<Step> {
    [RemoveTwig(t.name)] + UnlinkSteps(t.name, t.userFiles, false) + UnlinkSteps(t.name, t.systemFiles, true)
  }

  /** An enabled twig: installed unless present, then its files linked. */
  function Setup(t: Twig, present: bool): seq<Step> {
    (if present then [] else [InstallTwig(t.name)])
      + LinkSteps(t.name, t.userFiles, false) + LinkSteps(t.name, t.systemFiles, true)
  }

  predicate Within(order: seq<nat>, n: nat) {
    forall k :: 0 <= k < |order| ==> order[k] < n
  }

  function Teardowns(twigs: seq<Twig>, order: seq<nat>): seq<Step>
    requires Within(order, |twigs|)
  {
    if order == [] then [] else Teardowns(twigs, order[..|order| - 1]) + Teardown(twigs[order[|order| - 1]])
  }

  function Setups(twigs: seq<Twig>, present: seq<bool>, order: seq<nat>): seq<Step>
    requires |present| == |twigs| && Within(order, |twigs|)
  {
    if order == [] then []
    else
      var i := order[|order| - 1];
      Setups(twigs, present, order[..|order| - 1]) + Setup(twigs[i], present[i])
  }

  function Completions(twigs: seq<Twig>, order: seq<nat>): seq<Step>
    requires Within(order, |twigs|)
  {
    if order == [] then [] else Completions(twigs, order[..|order| - 1]) + [CompleteTwig(twigs[order[|order| - 1]].name)]
  }

  /**
   * What `build` does: the disabled twigs torn down in reverse registration
   * order, the enabled ones set up in registration order, and then
   * completed in reverse order.
   */
  function BuildTrace(twigs: seq<Twig>, enabled: seq<bool>, present: seq<bool>): seq<Step>
    requires |enabled| == |twigs| == |present|
  {
    Teardowns(twigs, Reversed(Indices(Negated(enabled))))
      + Setups(twigs, present, Indices(enabled))
      + Completions(twigs, Reversed(Indices(enabled)))
  }

  /** `build` as written: the width of the twig names is `max(…)` over the enabled twigs. */
  datatype Run = Run(steps: seq<Step>, raised: bool)

  /** The longest name among the twigs at `order`; `None` where `max` raises for want of any. */
  function WidestName(twigs: seq<Twig>, order: seq<nat>): (r: Option<nat>)
    requires Within(order, |twigs|)
    ensures r.None? <==> order == []
    ensures r.Some? ==> forall k :: 0 <= k < |order| ==> |twigs[order[k]].name| <= r.value
    ensures r.Some? ==> exists k :: 0 <= k < |order| && |twigs[order[k]].name| == r.value
  {
    if order == [] then None
    else
      var n := |twigs[order[|order| - 1]].name|;
      var w := WidestName(twigs, order[..|order| - 1]);
      if w.Some? && w.value >= n then w else Some(n)
  }

  /**
   * `build` as the code is written: once the disabled twigs are torn down,
   * the header width is `max` over the enabled twigs' names, which raises
   * `ValueError` when no twig is enabled.
   */
  function BuildAsWritten(twigs: seq<Twig>, enabled: seq<bool>, present: seq<bool>): Run
    requires |enabled| == |twigs| == |present|
  {
    var teardown := Teardowns(twigs, Reversed(Indices(Negated(enabled))));
    if WidestName(twigs, Indices(enabled)).None? then Run(teardown, true)
    else Run(BuildTrace(twigs, enabled, present), false)
  }

  /** With every twig disabled, `build` as written fails after the teardown, where nothing was left to do. */
  lemma BuildWithoutEnabledTwigsRaises(twigs: seq<Twig>, enabled: seq<bool>, present: seq<bool>)
    requires |enabled| == |twigs| == |present|
    requires forall i :: 0 <= i < |enabled| ==> !enabled[i]
    ensures BuildAsWritten(twigs, enabled, present).raised
    ensures BuildTrace(twigs, enabled, present) == BuildAsWritten(twigs, enabled, present).steps
  {
  }

  /** With some twig enabled, `build` as written is `BuildTrace`. */
  lemma BuildWithEnabledTwigs(twigs: seq<Twig>, enabled: seq<bool>, present: seq<bool>, i: nat)
    requires |enabled| == |twigs| == |present| && i < |twigs| && enabled[i]
    ensures BuildAsWritten(twigs, enabled, present) == Run(BuildTrace(twigs, enabled, present), false)
  {
    IndicesComplete(enabled);
    assert i in Indices(enabled);
  }

  /** Python's format field with width `N`: `s` left-aligned in `N` columns. */
  function PadRight(s: string, width: int): (r: string)
    ensures |s| <= width ==> |r| == width
    ensures |r| >= |s| && r[..|s|] == s
  {
    s + Repeat(" ", if width > |s| then width - |s| else 0)
  }

  /** The header of a twig in `build`, without formatting. */
  function Header(name: string, width: int, description: string): string {
    PadRight(name, width) + " - " + description
  }

  /**
   * The enabled twigs' headers are aligned: the separator follows each name
   * at the width of the longest name, and the formatted header, whose width
   * adds the length of the escape codes, is the bold name followed by the
   * same padding and description as the plain one.
   */
  lemma HeadersAligned(twigs: seq<Twig>, enabled: seq<bool>, i: nat)
    requires |enabled| == |twigs| && i < |twigs| && enabled[i]
    ensures WidestName(twigs, Indices(enabled)).Some?
    ensures var w := WidestName(twigs, Indices(enabled)).value;
      var plain := Header(twigs[i].name, w, twigs[i].description);
      |plain| == w + 3 + |twigs[i].description| && plain[w..w + 3] == " - " &&
      Header(Ui.Bold(twigs[i].name), w + |Ui.Bold("")|, twigs[i].description)
        == Ui.Bold(twigs[i].name) + plain[|twigs[i].name|..]
  {
    var order := Indices(enabled);
    IndicesComplete(enabled);
    var k :| 0 <= k < |order| && order[k] == i;
    HeaderPadding(twigs[i].name, WidestName(twigs, order).value, twigs[i].description);
  }

  /** A name no wider than `w` is padded to `w`, bold or not, by the same spaces. */
  lemma HeaderPadding(name: string, w: nat, description: string)
    requires |name| <= w
    ensures var plain := Header(name, w, description);
      |plain| == w + 3 + |description| && plain[w..w + 3] == " - " &&
      Header(Ui.Bold(name), w + |Ui.Bold("")|, description) == Ui.Bold(name) + plain[|name|..]
  {
    var pad := Repeat(" ", w - |name|);
    assert PadRight(name, w) == name + pad;
    assert PadRight(Ui.Bold(name), w + |Ui.Bold("")|) == Ui.Bold(name) + pad;
    var plain := Header(name, w, description);
    assert plain == name + (pad + " - " + description);
    assert plain[|name|..] == pad + " - " + description;
  }

  // Properties of the trace

  /** The twigs of the steps of one kind, in order. */
  function TwigsOf(t: seq<Step>, k: Kind): seq<string> {
    if t == [] then []
    else TwigsOf(t[..|t| - 1], k) + (if KindOf(t[|t| - 1]) == k then [t[|t| - 1].twig] else [])
  }

  lemma {:induction false} TwigsOfAppend(a: seq<Step>, b: seq<Step>, k: Kind)
    ensures TwigsOf(a + b, k) == TwigsOf(a, k) + TwigsOf(b, k)
    decreases |b|
  {
    if b == [] {
      assert a + b == a;
    } else {
      var n := |b| - 1;
      assert (a + b)[..|a + b| - 1] == a + b[..n];
      TwigsOfAppend(a, b[..n], k);
    }
  }

  lemma {:induction false} TwigsOfNone(t: seq<Step>, ks: set<Kind>, k: Kind)
    requires Phase(t, ks) && k !in ks
    ensures TwigsOf(t, k) == []
  {
    if t != [] {
      TwigsOfNone(t[..|t| - 1], ks, k);
    }
  }

  /** The names of the twigs at `order`. */
  function NamesAt(twigs: seq<Twig>, order: seq<nat>): (r: seq<string>)
    requires Within(order, |twigs|)
    ensures |r| == |order| && forall k :: 0 <= k < |order| ==> r[k] == twigs[order[k]].name
  {
    if order == [] then [] else NamesAt(twigs, order[..|order| - 1]) + [twigs[order[|order| - 1]].name]
  }

  /** Every step of `t` is of one of the kinds `ks`. */
  predicate Phase(t: seq<Step>, ks: set<Kind>) {
    forall k :: 0 <= k < |t| ==> KindOf(t[k]) in ks
  }

  lemma PhaseAppend(a: seq<Step>, b: seq<Step>, ks: set<Kind>)
    requires Phase(a, ks) && Phase(b, ks)
    ensures Phase(a + b, ks)
  {
    assert forall k :: |a| <= k < |a + b| ==> (a + b)[k] == b[k - |a|];
  }

  /** A twig's teardown removes it once and otherwise only unlinks. */
  lemma TeardownRemoves(t: Twig)
    ensures TwigsOf(Teardown(t), Removal) == [t.name]
    ensures Phase(Teardown(t), {Removal, Unlinking})
  {
    var user := UnlinkSteps(t.name, t.userFiles, false);
    var system := UnlinkSteps(t.name, t.systemFiles, true);
    var head := [RemoveTwig(t.name)];
    var rest := user + system;
    assert Teardown(t) == head + rest;
    PhaseAppend(user, system, {Unlinking});
    TwigsOfNone(rest, {Unlinking}, Removal);
    TwigsOfAppend(head, rest, Removal);
    assert TwigsOf(head, Removal) == [t.name];
    PhaseAppend(user, system, {Removal, Unlinking});
    PhaseAppend(head, rest, {Removal, Unlinking});
  }

  lemma {:induction false} TeardownsRemove(twigs: seq<Twig>, order: seq<nat>)
    requires Within(order, |twigs|)
    ensures TwigsOf(Teardowns(twigs, order), Removal) == NamesAt(twigs, order)
    ensures Phase(Teardowns(twigs, order), {Removal, Unlinking})
  {
    if order != [] {
      var n := |order| - 1;
      var t := twigs[order[n]];
      var before := Teardowns(twigs, order[..n]);
      assert Teardowns(twigs, order) == before + Teardown(t);
      TeardownsRemove(twigs, order[..n]);
      TeardownRemoves(t);
      TwigsOfAppend(before, Teardown(t), Removal);
      PhaseAppend(before, Teardown(t), {Removal, Unlinking});
      assert NamesAt(twigs, order) == NamesAt(twigs, order[..n]) + [t.name];
    }
  }

  /** The twigs at `order` that are not present. */
  function Absent(present: seq<bool>, order: seq<nat>): seq<nat>
    requires Within(order, |present|)
  {
    if order == [] then []
    else
      var i := order[|order| - 1];
      Absent(present, order[..|order| - 1]) + (if present[i] then [] else [i])
  }

  lemma {:induction false} AbsentWithin(present: seq<bool>, order: seq<nat>)
    requires Within(order, |present|)
    ensures Within(Absent(present, order), |present|)
  {
    if order != [] {
      AbsentWithin(present, order[..|order| - 1]);
    }
  }

  /** A twig's setup installs it unless present and otherwise only links. */
  lemma SetupInstalls(t: Twig, present: bool)
    ensures TwigsOf(Setup(t, present), Installation) == if present then [] else [t.name]
    ensures Phase(Setup(t, present), {Installation, Linking})
  {
    var user := LinkSteps(t.name, t.userFiles, false);
    var system := LinkSteps(t.name, t.systemFiles, true);
    PhaseAppend(user, system, {Linking});
    var links := user + system;
    TwigsOfNone(links, {Linking}, Installation);
    PhaseAppend(user, system, {Installation, Linking});
    if present {
      assert Setup(t, present) == links;
    } else {
      var head := [InstallTwig(t.name)];
      TwigsOfAppend(head, links, Installation);
      assert TwigsOf(head, Installation) == [t.name];
      PhaseAppend(head, links, {Installation, Linking});
      assert Setup(t, present) == head + links;
    }
  }

  lemma {:induction false} SetupsInstall(twigs: seq<Twig>, present: seq<bool>, order: seq<nat>)
    requires |present| == |twigs| && Within(order, |twigs|)
    ensures Within(Absent(present, order), |twigs|)
    ensures TwigsOf(Setups(twigs, present, order), Installation) == NamesAt(twigs, Absent(present, order))
    ensures Phase(Setups(twigs, present, order), {Installation, Linking})
  {
    AbsentWithin(present, order);
    if order != [] {
      var n := |order| - 1;
      var i := order[n];
      var t := twigs[i];
      var before := Setups(twigs, present, order[..n]);
      assert Setups(twigs, present, order) == before + Setup(t, present[i]);
      SetupsInstall(twigs, present, order[..n]);
      SetupInstalls(t, present[i]);
      TwigsOfAppend(before, Setup(t, present[i]), Installation);
      PhaseAppend(before, Setup(t, present[i]), {Installation, Linking});
      var absent := Absent(present, order[..n]);
      assert Absent(present, order) == absent + (if present[i] then [] else [i]);
      AbsentWithin(present, order[..n]);
      if !present[i] {
        assert NamesAt(twigs, absent + [i]) == NamesAt(twigs, absent) + [t.name] by {
          assert (absent + [i])[..|absent|] == absent;
        }
      }
    }
  }

  lemma {:induction false} CompletionsComplete(twigs: seq<Twig>, order: seq<nat>)
    requires Within(order, |twigs|)
    ensures TwigsOf(Completions(twigs, order), Completion) == NamesAt(twigs, order)
    ensures Phase(Completions(twigs, order), {Completion})
  {
    if order != [] {
      var n := |order| - 1;
      var before := Completions(twigs, order[..n]);
      var last := [CompleteTwig(twigs[order[n]].name)];
      assert Completions(twigs, order) == before + last;
      CompletionsComplete(twigs, order[..n]);
      TwigsOfAppend(before, last, Completion);
      PhaseAppend(before, last, {Completion});
      assert NamesAt(twigs, order) == NamesAt(twigs, order[..n]) + [twigs[order[n]].name];
    }
  }

  /** Three phases in a row: no step of a later phase comes before one of an earlier. */
  lemma PhasesOrdered(down: seq<Step>, up: seq<Step>, last: seq<Step>)
    requires Phase(down, {Removal, Unlinking}) && Phase(up, {Installation, Linking}) && Phase(last, {Completion})
    ensures var t := down + up + last;
      forall i, j :: 0 <= i < j < |t| ==>
        (KindOf(t[j]) in {Removal, Unlinking} ==> KindOf(t[i]) in {Removal, Unlinking}) &&
        (KindOf(t[i]) == Completion ==> KindOf(t[j]) == Completion)
  {
    var t := down + up + last;
    forall i, j | 0 <= i < j < |t|
      ensures KindOf(t[j]) in {Removal, Unlinking} ==> KindOf(t[i]) in {Removal, Unlinking}
      ensures KindOf(t[i]) == Completion ==> KindOf(t[j]) == Completion
    {
      if j < |down| {
        assert t[i] == down[i] && t[j] == down[j];
      } else if j < |down| + |up| {
        assert t[j] == up[j - |down|];
        if i < |down| {
          assert t[i] == down[i];
        } else {
          assert t[i] == up[i - |down|];
        }
      } else {
        assert t[j] == last[j - |down| - |up|];
      }
    }
  }

  /**
   * The removals, installations and completions of a trace made of
   * teardowns, setups and completions, each of them from its own phase.
   */
  lemma TraceProjections(twigs: seq<Twig>, present: seq<bool>, disabled: seq<nat>, on: seq<nat>, reversed: seq<nat>)
    requires |present| == |twigs| && Within(disabled, |twigs|) && Within(on, |twigs|) && Within(reversed, |twigs|)
    ensures Within(Absent(present, on), |twigs|)
    ensures var t := Teardowns(twigs, disabled) + Setups(twigs, present, on) + Completions(twigs, reversed);
      TwigsOf(t, Removal) == NamesAt(twigs, disabled) &&
      TwigsOf(t, Installation) == NamesAt(twigs, Absent(present, on)) &&
      TwigsOf(t, Completion) == NamesAt(twigs, reversed)
  {
    SetupsInstall(twigs, present, on);
    TraceRemovals(twigs, present, disabled, on, reversed);
    TraceInstallations(twigs, present, disabled, on, reversed);
    TraceCompletions(twigs, present, disabled, on, reversed);
  }

  /** The removals of such a trace are those of its teardowns. */
  lemma TraceRemovals(twigs: seq<Twig>, present: seq<bool>, disabled: seq<nat>, on: seq<nat>, reversed: seq<nat>)
    requires |present| == |twigs| && Within(disabled, |twigs|) && Within(on, |twigs|) && Within(reversed, |twigs|)
    ensures TwigsOf(Teardowns(twigs, disabled) + Setups(twigs, present, on) + Completions(twigs, reversed), Removal)
      == NamesAt(twigs, disabled)
  {
    var down := Teardowns(twigs, disabled);
    TeardownsRemove(twigs, disabled);
    SetupsInstall(twigs, present, on);
    CompletionsComplete(twigs, reversed);
    TraceKind(down, Setups(twigs, present, on), {Installation, Linking}, Completions(twigs, reversed), {Completion},
              Removal, TwigsOf(down, Removal));
  }

  /** The installations of such a trace are those of its setups. */
  lemma TraceInstallations(twigs: seq<Twig>, present: seq<bool>, disabled: seq<nat>, on: seq<nat>, reversed: seq<nat>)
    requires |present| == |twigs| && Within(disabled, |twigs|) && Within(on, |twigs|) && Within(reversed, |twigs|)
    ensures Within(Absent(present, on), |twigs|)
    ensures TwigsOf(Teardowns(twigs, disabled) + Setups(twigs, present, on) + Completions(twigs, reversed), Installation)
      == NamesAt(twigs, Absent(present, on))
  {
    var up := Setups(twigs, present, on);
    TeardownsRemove(twigs, disabled);
    SetupsInstall(twigs, present, on);
    CompletionsComplete(twigs, reversed);
    TraceKind(up, Teardowns(twigs, disabled), {Removal, Unlinking}, Completions(twigs, reversed), {Completion},
              Installation, TwigsOf(up, Installation));
  }

  /** The completions of such a trace are those of its completion phase. */
  lemma TraceCompletions(twigs: seq<Twig>, present: seq<bool>, disabled: seq<nat>, on: seq<nat>, reversed: seq<nat>)
    requires |present| == |twigs| && Within(disabled, |twigs|) && Within(on, |twigs|) && Within(reversed, |twigs|)
    ensures TwigsOf(Teardowns(twigs, disabled) + Setups(twigs, present, on) + Completions(twigs, reversed), Completion)
      == NamesAt(twigs, reversed)
  {
    var last := Completions(twigs, reversed);
    TeardownsRemove(twigs, disabled);
    SetupsInstall(twigs, present, on);
    CompletionsComplete(twigs, reversed);
    TraceKind(last, Teardowns(twigs, disabled), {Removal, Unlinking}, Setups(twigs, present, on), {Installation, Linking},
              Completion, TwigsOf(last, Completion));
  }

  /**
   * `build` removes exactly the disabled twigs, last registered first;
   * installs exactly the enabled twigs that are not present, in
   * registration order; and completes exactly the enabled twigs, last
   * registered first.
   */
  lemma BuildProjections(twigs: seq<Twig>, enabled: seq<bool>, present: seq<bool>)
    requires |enabled| == |twigs| == |present|
    ensures Within(Absent(present, Indices(enabled)), |twigs|)
    ensures var t := BuildTrace(twigs, enabled, present);
      TwigsOf(t, Removal) == NamesAt(twigs, Reversed(Indices(Negated(enabled)))) &&
      TwigsOf(t, Installation) == NamesAt(twigs, Absent(present, Indices(enabled))) &&
      TwigsOf(t, Completion) == NamesAt(twigs, Reversed(Indices(enabled)))
  {
    TraceProjections(twigs, present, Reversed(Indices(Negated(enabled))), Indices(enabled), Reversed(Indices(enabled)));
  }

  /**
   * Every removal and unlinking of `build` comes before every installation
   * and linking, and every completion comes after them all.
   */
  lemma BuildPhases(twigs: seq<Twig>, enabled: seq<bool>, present: seq<bool>)
    requires |enabled| == |twigs| == |present|
    ensures var t := BuildTrace(twigs, enabled, present);
      forall i, j :: 0 <= i < j < |t| ==>
        (KindOf(t[j]) in {Removal, Unlinking} ==> KindOf(t[i]) in {Removal, Unlinking}) &&
        (KindOf(t[i]) == Completion ==> KindOf(t[j]) == Completion)
  {
    TeardownsRemove(twigs, Reversed(Indices(Negated(enabled))));
    SetupsInstall(twigs, present, Indices(enabled));
    CompletionsComplete(twigs, Reversed(Indices(enabled)));
    PhasesOrdered(Teardowns(twigs, Reversed(Indices(Negated(enabled)))),
      Setups(twigs, present, Indices(enabled)), Completions(twigs, Reversed(Indices(enabled))));
  }

  /**
   * The steps of kind `k` of `down + up + last` when only the phase `mine`
   * among them has any.
   */
  lemma TraceKind(mine: seq<Step>, other1: seq<Step>, ks1: set<Kind>, other2: seq<Step>, ks2: set<Kind>, k: Kind, names: seq<string>)
    requires TwigsOf(mine, k) == names
    requires Phase(other1, ks1) && Phase(other2, ks2) && k !in ks1 && k !in ks2
    ensures TwigsOf(mine + other1 + other2, k) == names
    ensures TwigsOf(other1 + mine + other2, k) == names
    ensures TwigsOf(other1 + other2 + mine, k) == names
  {
    TwigsOfNone(other1, ks1, k);
    TwigsOfNone(other2, ks2, k);
    TwigsOfAppend(mine, other1, k);
    TwigsOfAppend(mine + other1, other2, k);
    TwigsOfAppend(other1, mine, k);
    TwigsOfAppend(other1 + mine, other2, k);
    TwigsOfAppend(other1, other2, k);
    TwigsOfAppend(other1 + other2, mine, k);
  }

  /**
   * `build`: the three loops of the code, each twig's files unlinked or
   * linked one by one.
   */
  method Build(twigs: seq<Twig>, enabled: seq<bool>, present: seq<bool>) returns (steps: seq<Step>)
    requires |enabled| == |twigs| == |present|
    ensures steps == BuildTrace(twigs, enabled, present)
  {
    var down := RemoveDisabled(twigs, Reversed(Indices(Negated(enabled))));
    var on := Indices(enabled);
    var up := InstallEnabled(twigs, present, on);
    var last := CompleteEnabled(twigs, Reversed(on));
    steps := down + up + last;
  }

  /** The section "Removing disabled twigs": each twig removed, then its files unlinked. */
  method RemoveDisabled(twigs: seq<Twig>, disabled: seq<nat>) returns (down: seq<Step>)
    requires Within(disabled, |twigs|)
    ensures down == Teardowns(twigs, disabled)
  {
    down := [];
    for k := 0 to |disabled|
      invariant down == Teardowns(twigs, disabled[..k])
    {
      var t := twigs[disabled[k]];
      var unlinks := FileSteps(t.name, t.userFiles, false, false);
      var systemUnlinks := FileSteps(t.name, t.systemFiles, true, false);
      TeardownsStep(twigs, disabled, k);
      down := down + ([RemoveTwig(t.name)] + unlinks + systemUnlinks);
    }
    assert disabled[..|disabled|] == disabled;
  }

  /** The section "Installing twigs": each twig installed unless present, then its files linked. */
  method InstallEnabled(twigs: seq<Twig>, present: seq<bool>, on: seq<nat>) returns (up: seq<Step>)
    requires |present| == |twigs| && Within(on, |twigs|)
    ensures up == Setups(twigs, present, on)
  {
    up := [];
    for k := 0 to |on|
      invariant up == Setups(twigs, present, on[..k])
    {
      var i := on[k];
      var t := twigs[i];
      var install: seq<Step> := [];
      if !present[i] {
        install := [InstallTwig(t.name)];
      }
      var links := FileSteps(t.name, t.userFiles, false, true);
      var systemLinks := FileSteps(t.name, t.systemFiles, true, true);
      SetupsStep(twigs, present, on, k);
      up := up + (install + links + systemLinks);
    }
    assert on[..|on|] == on;
  }

  /** The final loop: each enabled twig completed, last registered first. */
  method CompleteEnabled(twigs: seq<Twig>, order: seq<nat>) returns (last: seq<Step>)
    requires Within(order, |twigs|)
    ensures last == Completions(twigs, order)
  {
    last := [];
    for k := 0 to |order|
      invariant last == Completions(twigs, order[..k])
    {
      var p := order[..k + 1];
      assert p[..|p| - 1] == order[..k] && p[|p| - 1] == order[k];
      last := last + [CompleteTwig(twigs[order[k]].name)];
    }
    assert order[..|order|] == order;
  }

  /** A prefix of a selection of twigs selects registered twigs too. */
  lemma WithinPrefix(order: seq<nat>, n: nat, k: nat)
    requires Within(order, n) && k <= |order|
    ensures Within(order[..k], n)
  {
    forall j | 0 <= j < k ensures order[..k][j] < n {
      assert order[..k][j] == order[j];
    }
  }

  lemma TeardownsStep(twigs: seq<Twig>, order: seq<nat>, k: nat)
    requires Within(order, |twigs|) && k < |order|
    ensures Teardowns(twigs, order[..k + 1]) == Teardowns(twigs, order[..k]) + Teardown(twigs[order[k]])
  {
    var p := order[..k + 1];
    WithinPrefix(order, |twigs|, k + 1);
    WithinPrefix(order, |twigs|, k);
    assert p[..|p| - 1] == order[..k] && p[|p| - 1] == order[k];
    assert Teardowns(twigs, p) == Teardowns(twigs, p[..|p| - 1]) + Teardown(twigs[p[|p| - 1]]);
  }

  lemma SetupsStep(twigs: seq<Twig>, present: seq<bool>, order: seq<nat>, k: nat)
    requires |present| == |twigs| && Within(order, |twigs|) && k < |order|
    ensures Setups(twigs, present, order[..k + 1]) == Setups(twigs, present, order[..k]) + Setup(twigs[order[k]], present[order[k]])
  {
    var p := order[..k + 1];
    WithinPrefix(order, |twigs|, k + 1);
    WithinPrefix(order, |twigs|, k);
    assert p[..|p| - 1] == order[..k] && p[|p| - 1] == order[k];
    assert Setups(twigs, present, p) == Setups(twigs, present, p[..|p| - 1]) + Setup(twigs[p[|p| - 1]], present[p[|p| - 1]]);
  }

  /** One loop over a twig's files, unlinking or linking each. */
  method FileSteps(name: string, files: seq<string>, system: bool, link: bool) returns (steps: seq<Step>)
    ensures steps == if link then LinkSteps(name, files, system) else UnlinkSteps(name, files, system)
  {
    steps := [];
    for k := 0 to |files|
      invariant steps == if link then LinkSteps(name, files[..k], system) else UnlinkSteps(name, files[..k], system)
    {
      assert files[..k + 1][..k] == files[..k];
      steps := steps + [if link then LinkFile(name, files[k], system) else UnlinkFile(name, files[k], system)];
    }
    assert files[..|files|] == files;
  }
}
