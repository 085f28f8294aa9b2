/**
 * The `system` twig (`twigs/system/__init__.py`): package twigs are
 * installed, checked and removed through the one enabled provider twig
 * that claims them in its `packages` section, or through the generic
 * commands of the `system` configuration when no provider does.
 *
 * The callbacks of a provider and the commands run are not part of the
 * model: a decision names which of them runs and with which argument.
 */
module SystemPackages {
  import opened Wrappers
  import Configuration
  import Expression
  import TwigStrings

  /** The providers of a package: more than one is a configuration error. */
  datatype SystemError = SeveralProviders(package: string, providers: seq<string>)

  /** What installing, checking or removing a package runs. */
  datatype Action =
    | ByProvider(record: nat)                   // the callback of `PROVIDERS[record]`
    | Generic(package: Configuration.Answer)    // the generic command, for the package name configured
    | Which(binary: string)                     // `shutil.which(binary) is not None`

  /** A value read back from the configuration that is Python's `None`. */
  predicate IsNone(a: Configuration.Answer) {
    a == Configuration.Values(None) || a == Configuration.Stored(Configuration.Leaf(Expression.NoneValue))
  }

  /**
   * The provider's `packages` section claims the package: it holds the name,
   * with a value. When the provider's `packages` entry is a plain value
   * rather than a section, the model lets it claim nothing.
   */
  predicate Claims(packages: Configuration.View, name: string) {
    packages.Container? && Configuration.Contains(packages, name) &&
    !IsNone(Configuration.Call(Configuration.Lookup(packages, name), None))
  }

  /** The records of `PROVIDERS` from `from` on that are `eligible`, in registration order. */
  function Candidates(records: seq<string>, eligible: string -> bool, from: nat): seq<nat>
    requires from <= |records|
    decreases |records| - from
  {
    if from == |records| then []
    else
      var rest := Candidates(records, eligible, from + 1);
      if eligible(records[from]) then [from] + rest else rest
  }

  /** The candidates are exactly the eligible records, each once and in registration order. */
  lemma {:induction false} CandidatesMeaning(records: seq<string>, eligible: string -> bool, from: nat)
    requires from <= |records|
    ensures forall k :: 0 <= k < |Candidates(records, eligible, from)| ==>
      from <= Candidates(records, eligible, from)[k] < |records| && eligible(records[Candidates(records, eligible, from)[k]])
    ensures forall j :: from <= j < |records| && eligible(records[j]) ==> j in Candidates(records, eligible, from)
    ensures forall k, l :: 0 <= k < l < |Candidates(records, eligible, from)| ==>
      Candidates(records, eligible, from)[k] < Candidates(records, eligible, from)[l]
    decreases |records| - from
  {
    if from < |records| {
      CandidatesMeaning(records, eligible, from + 1);
      var r := Candidates(records, eligible, from);
      var rest := Candidates(records, eligible, from + 1);
      if eligible(records[from]) {
        assert r == [from] + rest;
        assert forall k :: 0 < k < |r| ==> r[k] == rest[k - 1];
      } else {
        assert r == rest;
      }
    }
  }

  /** A provider twig that is enabled and claims the package. */
  function Eligible(name: string, enabled: string -> bool, packages: string -> Configuration.View): string -> bool {
    t => enabled(t) && Claims(packages(t), name)
  }

  /** The names of the providers, for the error message. */
  function ProviderNames(records: seq<string>, indices: seq<nat>): (r: seq<string>)
    requires forall k :: 0 <= k < |indices| ==> indices[k] < |records|
    ensures |r| == |indices|
    ensures forall k :: 0 <= k < |indices| ==> r[k] == records[indices[k]]
  {
    if indices == [] then [] else [records[indices[0]]] + ProviderNames(records, indices[1..])
  }

  /**
   * `_provider(me)`: the only candidate; an error naming all of them when
   * there are several; nothing (Python's `StopIteration`) when there is none.
   */
  function Provider(records: seq<string>, name: string, enabled: string -> bool,
                    packages: string -> Configuration.View): (r: Result<Option<nat>, SystemError>)
  {
    var candidates := Candidates(records, Eligible(name, enabled, packages), 0);
    CandidatesMeaning(records, Eligible(name, enabled, packages), 0);
    if |candidates| > 1 then Err(SeveralProviders(name, ProviderNames(records, candidates)))
    else if |candidates| == 1 then Ok(Some(candidates[0]))
    else Ok(None)
  }

  /**
   * The provider found is the one enabled record that claims the package;
   * none is found exactly when no enabled record claims it; two enabled
   * claiming records are an error that names them.
   */
  lemma ProviderMeaning(records: seq<string>, name: string, enabled: string -> bool,
                        packages: string -> Configuration.View)
    ensures var r := Provider(records, name, enabled, packages);
      (r.Ok? && r.value.Some? ==>
        r.value.value < |records| && enabled(records[r.value.value]) && Claims(packages(records[r.value.value]), name) &&
        forall j :: 0 <= j < |records| && j != r.value.value ==> !(enabled(records[j]) && Claims(packages(records[j]), name)))
    ensures Provider(records, name, enabled, packages) == Ok(None) <==>
      forall j :: 0 <= j < |records| ==> !(enabled(records[j]) && Claims(packages(records[j]), name))
    ensures Provider(records, name, enabled, packages).Err? <==>
      exists i, j :: 0 <= i < j < |records| && enabled(records[i]) && Claims(packages(records[i]), name) &&
                     enabled(records[j]) && Claims(packages(records[j]), name)
    ensures Provider(records, name, enabled, packages).Err? ==>
      Provider(records, name, enabled, packages).error.package == name &&
      forall j :: 0 <= j < |records| && enabled(records[j]) && Claims(packages(records[j]), name) ==>
        records[j] in Provider(records, name, enabled, packages).error.providers
  {
    var c := Candidates(records, Eligible(name, enabled, packages), 0);
    CandidatesMeaning(records, Eligible(name, enabled, packages), 0);
    if |c| > 1 {
      assert c[0] < c[1];
      var names := ProviderNames(records, c);
      forall j | 0 <= j < |records| && enabled(records[j]) && Claims(packages(records[j]), name)
        ensures records[j] in names
      {
        var k :| 0 <= k < |c| && c[k] == j;
        assert names[k] == records[j];
      }
    } else if |c| == 1 {
      forall i, j | 0 <= i < j < |records| && enabled(records[i]) && Claims(packages(records[i]), name)
        ensures !(enabled(records[j]) && Claims(packages(records[j]), name))
      {
        assert i in c;
      }
    } else {
      assert forall j :: 0 <= j < |records| ==> !(enabled(records[j]) && Claims(packages(records[j]), name));
    }
  }

  /** A provider that lists the package without a value does not claim it. */
  lemma ListedWithoutValue(packages: Configuration.View, name: string)
    requires packages.Container?
    requires Configuration.Find(packages, TwigStrings.Normalize(name)) == Some(Configuration.Leaf(Expression.NoneValue))
    ensures !Claims(packages, name)
  {
  }

  /** `main.c.packages[me.name](me.name)`: the package name configured for the twig, its own name by default. */
  function PackageName(main: Configuration.View, name: string): Configuration.Answer
    requires main.Container?
  {
    Configuration.Call(Configuration.Lookup(main, name), Some(name))
  }

  /** Without an entry for the twig, or with a sub-table entry, the package has the twig's name; a plain entry is used as it is. */
  lemma PackageNameDefault(main: Configuration.View, name: string)
    requires main.Container?
    ensures !Configuration.Contains(main, name) ==> PackageName(main, name) == Configuration.Default(name)
    ensures Configuration.Contains(main, name) && !Configuration.Find(main, TwigStrings.Normalize(name)).value.Table? ==>
      PackageName(main, name) == Configuration.Stored(Configuration.Find(main, TwigStrings.Normalize(name)).value)
    ensures Configuration.Contains(main, name) && Configuration.Find(main, TwigStrings.Normalize(name)).value.Table? ==>
      PackageName(main, name) == Configuration.Default(name)
  {
  }

  /** `package(me)`, the installer of a package twig: the provider's callback, or the generic install. */
  function Install(records: seq<string>, name: string, enabled: string -> bool,
                   packages: string -> Configuration.View, main: Configuration.View): (r: Result<Action, SystemError>)
    requires main.Container?
  {
    var p :- Provider(records, name, enabled, packages);
    Ok(if p.Some? then ByProvider(p.value) else Generic(PackageName(main, name)))
  }

  /**
   * `is_installed(me)`, the checker of a package twig: the provider's
   * callback, else the binary lookup when the twig names a binary, else the
   * generic check.
   */
  function IsInstalled(records: seq<string>, name: string, enabled: string -> bool,
                       packages: string -> Configuration.View, main: Configuration.View,
                       binary: Option<string>): (r: Result<Action, SystemError>)
    requires main.Container?
  {
    var p :- Provider(records, name, enabled, packages);
    Ok(if p.Some? then ByProvider(p.value)
       else if binary.Some? then Which(binary.value)
       else Generic(PackageName(main, name)))
  }

  /**
   * `remove(me)`, the remover of a package twig: nothing unless the check
   * (`installed`, what the action `IsInstalled` names answers) holds; then
   * the provider's callback, or the generic removal.
   */
  function Remove(records: seq<string>, name: string, enabled: string -> bool,
                  packages: string -> Configuration.View, main: Configuration.View,
                  binary: Option<string>, installed: Action -> bool): (r: Result<Option<Action>, SystemError>)
    requires main.Container?
  {
    var check :- IsInstalled(records, name, enabled, packages, main, binary);
    if !installed(check) then Ok(None)
    else
      var p :- Provider(records, name, enabled, packages);
      Ok(Some(if p.Some? then ByProvider(p.value) else Generic(PackageName(main, name))))
  }

  /**
   * The three operations agree on where a package is handled: all through
   * the same provider, or all generically (the check by binary when one is
   * named), and they fail together.
   */
  lemma OperationsAgree(records: seq<string>, name: string, enabled: string -> bool,
                        packages: string -> Configuration.View, main: Configuration.View,
                        binary: Option<string>, installed: Action -> bool)
    requires main.Container?
    ensures Install(records, name, enabled, packages, main).Err? <==> Provider(records, name, enabled, packages).Err?
    ensures IsInstalled(records, name, enabled, packages, main, binary).Err? <==> Provider(records, name, enabled, packages).Err?
    ensures Remove(records, name, enabled, packages, main, binary, installed).Err? <==> Provider(records, name, enabled, packages).Err?
    ensures Provider(records, name, enabled, packages) == Ok(None) ==>
      Install(records, name, enabled, packages, main) == Ok(Generic(PackageName(main, name))) &&
      IsInstalled(records, name, enabled, packages, main, binary) ==
        Ok(if binary.Some? then Which(binary.value) else Generic(PackageName(main, name)))
    ensures forall i :: Provider(records, name, enabled, packages) == Ok(Some(i)) ==>
      Install(records, name, enabled, packages, main) == Ok(ByProvider(i)) &&
      IsInstalled(records, name, enabled, packages, main, binary) == Ok(ByProvider(i)) &&
      Remove(records, name, enabled, packages, main, binary, installed) ==
        Ok(if installed(ByProvider(i)) then Some(ByProvider(i)) else None)
  {
  }

  /** `PROVIDERS`: the provider twigs, in the order `provider` was called. */
  class Providers {
    var records: seq<string>

    constructor ()
      ensures records == []
    {
      records := [];
    }

    /** `provider(me, ...)`: one more record, and the twig is returned as it is. */
    method Provide(me: string) returns (r: string)
      modifies this
      ensures records == old(records) + [me]
      ensures r == me
    {
      records := records + [me];
      r := me;
    }
  }
}
