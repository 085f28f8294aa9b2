/**
 * Twigs and their registry (`src/nest/twigs/__init__.py`).
 *
 * A twig's callbacks are Python functions; here each one is an opaque
 * `StageId`, and what a callback answers when it runs is supplied by an
 * oracle parameter (`outcome`, `lists`, `applied`). The decorators build a
 * chain of wrappers, each calling the previous chain and then the new
 * callback; the functions below are written in that nested shape, and
 * lemmas relate each to the plain left-to-right reading of the registered
 * callbacks. The registry records every callback it runs in `log`.
 */
module Twigs {
  import opened Wrappers
  import opened Dicts
  import opened Configuration

  /** One registered callback. */
  type StageId = nat

  datatype Twig = Twig(
    name: string,
    description: string,
    dependencies: set<string>,
    provided: set<string>,
    source: Option<string>,
    copyFiles: bool,
    versionPath: string,
    installer: StageId,
    checkers: seq<StageId>,
    preparers: seq<StageId>,
    completers: seq<StageId>,
    removers: seq<StageId>,
    listers: seq<StageId>,
    appliers: seq<StageId>,
      /** The `present` cache: `None` until the checker has run since the last install. */
    present: Option<bool>,
      /** The files linked into the home directory and into the system root, relative to their source. */
    userFiles: seq<string>,
    systemFiles: seq<string>)

  /** The kinds of callback a decorator adds. */
  datatype Kind = Checker | Preparer | Completer | Remover | UpdateLister | UpdateApplier

  /** A callback that was run, and for which twig. */
  datatype Event = Call(twig: string, stage: StageId)

  datatype RegistryError = AddedTwice(name: string)

  // ---------------------------------------------------------------------
  // Callback chains

  /**
   * The composed checker: `previous() and f(me)`, starting from `True`.
   * Returns the answer and the checkers that ran.
   */
  function Check(stages: seq<StageId>, outcome: StageId -> bool): (bool, seq<StageId>)
    decreases |stages|
  {
    if stages == [] then (true, [])
    else
      var last := stages[|stages| - 1];
      var (ok, ran) := Check(stages[..|stages| - 1], outcome);
      if ok then (outcome(last), ran + [last]) else (false, ran)
  }

  /**
   * The checker chain is a short-circuit conjunction in registration order:
   * it holds iff every checker holds, and the checkers that run are a
   * prefix of the registered ones that stops at the first failing one.
   */
  lemma {:induction false} CheckIsConjunction(stages: seq<StageId>, outcome: StageId -> bool)
    ensures Check(stages, outcome).0 <==> forall i :: 0 <= i < |stages| ==> outcome(stages[i])
    ensures var ran := Check(stages, outcome).1;
      |ran| <= |stages| && ran == stages[..|ran|] &&
      (forall i :: 0 <= i < |ran| - 1 ==> outcome(ran[i])) &&
      (Check(stages, outcome).0 ==> ran == stages) &&
      (!Check(stages, outcome).0 ==> ran != [] && !outcome(ran[|ran| - 1]))
    decreases |stages|
  {
    if stages != [] {
      var init := stages[..|stages| - 1];
      CheckIsConjunction(init, outcome);
      var ran := Check(init, outcome).1;
      assert init == stages[..|init|];
      assert stages[..|ran|] == init[..|ran|];
      if Check(init, outcome).0 {
        assert ran == init;
        assert ran + [stages[|stages| - 1]] == stages;
      }
    }
  }

  /**
   * The closure a preparer, completer or remover decorator leaves behind:
   * the start, or a wrapper that calls the `previous` closure and then the
   * registered stage.
   */
  datatype Chain = Start | Then(previous: Chain, stage: StageId)

  /** The closure after the decorators registered `stages`, one after another. */
  function Compose(stages: seq<StageId>): Chain
    decreases |stages|
  {
    if stages == [] then Start else Then(Compose(stages[..|stages| - 1]), stages[|stages| - 1])
  }

  /** Calling a closure: `previous(); f(me)`. */
  function Run(c: Chain): seq<StageId> {
    match c
    case Start => []
    case Then(previous, stage) => Run(previous) + [stage]
  }

  /** The preparer, completer and remover chains, run. */
  function RunAll(stages: seq<StageId>): seq<StageId> {
    Run(Compose(stages))
  }

  /** Every registered callback runs once, in registration order. */
  lemma {:induction false} RunAllInOrder(stages: seq<StageId>)
    ensures RunAll(stages) == stages
    decreases |stages|
  {
    if stages != [] {
      RunAllInOrder(stages[..|stages| - 1]);
    }
  }

  /** The update lister chain: `previous() + f(me)`, starting from `[]`. */
  function ListUpdates(stages: seq<StageId>, lists: StageId -> seq<string>): seq<string>
    decreases |stages|
  {
    if stages == [] then []
    else ListUpdates(stages[..|stages| - 1], lists) + lists(stages[|stages| - 1])
  }

  /** The lists of the listers, concatenated in registration order. */
  function Concat(stages: seq<StageId>, lists: StageId -> seq<string>): seq<string>
    decreases |stages|
  {
    if stages == [] then [] else lists(stages[0]) + Concat(stages[1..], lists)
  }

  lemma {:induction false} ConcatAppend(a: seq<StageId>, s: StageId, lists: StageId -> seq<string>)
    ensures Concat(a + [s], lists) == Concat(a, lists) + lists(s)
    decreases |a|
  {
    if a != [] {
      assert (a + [s])[1..] == a[1..] + [s];
      ConcatAppend(a[1..], s, lists);
    }
  }

  /** The lister chain returns the concatenation of all listers' updates. */
  lemma {:induction false} ListUpdatesIsConcat(stages: seq<StageId>, lists: StageId -> seq<string>)
    ensures ListUpdates(stages, lists) == Concat(stages, lists)
    decreases |stages|
  {
    if stages != [] {
      var init := stages[..|stages| - 1];
      ListUpdatesIsConcat(init, lists);
      ConcatAppend(init, stages[|stages| - 1], lists);
      assert init + [stages[|stages| - 1]] == stages;
    }
  }

  /** The update applier chain: `(previous() or '') + (f(me) or '') or None`. */
  function ApplyUpdates(stages: seq<StageId>, applied: StageId -> Option<string>): Option<string>
    decreases |stages|
  {
    if stages == [] then None
    else
      var s := ApplyUpdates(stages[..|stages| - 1], applied).GetOr("") + applied(stages[|stages| - 1]).GetOr("");
      if s == "" then None else Some(s)
  }

  /** The appliers' instructions, `None` read as empty, concatenated in order. */
  function Instructions(stages: seq<StageId>, applied: StageId -> Option<string>): string
    decreases |stages|
  {
    if stages == [] then "" else Instructions(stages[..|stages| - 1], applied) + applied(stages[|stages| - 1]).GetOr("")
  }

  /** The applier chain returns the concatenated instructions, or `None` when there are none. */
  lemma {:induction false} ApplyUpdatesIsConcat(stages: seq<StageId>, applied: StageId -> Option<string>)
    ensures ApplyUpdates(stages, applied) ==
      if Instructions(stages, applied) == "" then None else Some(Instructions(stages, applied))
    decreases |stages|
  {
    if stages != [] {
      ApplyUpdatesIsConcat(stages[..|stages| - 1], applied);
    }
  }

  /** The instructions are the non-`None` answers in registration order. */
  lemma {:induction false} InstructionsAreAnswers(stages: seq<StageId>, applied: StageId -> Option<string>)
    requires forall i :: 0 <= i < |stages| ==> applied(stages[i]).None?
    ensures ApplyUpdates(stages, applied).None?
    decreases |stages|
  {
    if stages != [] {
      InstructionsAreAnswers(stages[..|stages| - 1], applied);
    }
  }

  /** The events of running `stages` for the twig `name`. */
  function Calls(name: string, stages: seq<StageId>): (r: seq<Event>)
    ensures |r| == |stages|
    ensures forall i :: 0 <= i < |stages| ==> r[i] == Call(name, stages[i])
  {
    if stages == [] then [] else [Call(name, stages[0])] + Calls(name, stages[1..])
  }

  // ---------------------------------------------------------------------
  // Dependencies and enablement

  function Names(twigs: seq<Twig>): (r: seq<string>)
    ensures |r| == |twigs|
  {
    if twigs == [] then [] else [twigs[0].name] + Names(twigs[1..])
  }

  /** The names are those of the twigs, in order. */
  lemma {:induction false} NamesAt(twigs: seq<Twig>)
    ensures forall i :: 0 <= i < |twigs| ==> Names(twigs)[i] == twigs[i].name
  {
    if twigs != [] {
      NamesAt(twigs[1..]);
      forall i | 0 < i < |twigs| ensures Names(twigs)[i] == twigs[i].name {
        assert twigs[1..][i - 1] == twigs[i];
      }
    }
  }

  /** No two twigs share a name. */
  predicate UniqueNames(twigs: seq<Twig>) {
    forall i, j :: 0 <= i < j < |twigs| ==> twigs[i].name != twigs[j].name
  }

  datatype DependencyError =
      /** `NestException`: the unmet dependency names and the names of all twigs. */
    | Unmet(twig: string, unmet: set<string>, available: seq<string>)
      /** The recursion of `enabled` went deeper than the interpreter allows. */
    | RecursionLimit

  /** The indices of the twigs named in `names`, in registration order. */
  function IndicesNamed(twigs: seq<Twig>, names: set<string>, from: nat): (r: seq<nat>)
    requires from <= |twigs|
    decreases |twigs| - from
  {
    if from == |twigs| then []
    else if twigs[from].name in names then [from] + IndicesNamed(twigs, names, from + 1)
    else IndicesNamed(twigs, names, from + 1)
  }

  /** The indices found are those, from `from` on, of the twigs named in `names`. */
  lemma {:induction false} IndicesNamedMeaning(twigs: seq<Twig>, names: set<string>, from: nat)
    requires from <= |twigs|
    ensures forall k :: 0 <= k < |IndicesNamed(twigs, names, from)| ==>
      from <= IndicesNamed(twigs, names, from)[k] < |twigs| &&
      twigs[IndicesNamed(twigs, names, from)[k]].name in names
    ensures forall j :: from <= j < |twigs| && twigs[j].name in names ==> j in IndicesNamed(twigs, names, from)
    decreases |twigs| - from
  {
    if from < |twigs| {
      IndicesNamedMeaning(twigs, names, from + 1);
      var rest := IndicesNamed(twigs, names, from + 1);
      var r := IndicesNamed(twigs, names, from);
      if twigs[from].name in names {
        assert r == [from] + rest;
        assert forall k :: 0 < k < |r| ==> r[k] == rest[k - 1];
      } else {
        assert r == rest;
      }
    }
  }

  /** `Twig.dependencies`: the registered twigs named as dependencies, or the names that are missing. */
  function Dependencies(twigs: seq<Twig>, i: nat): (r: Result<seq<nat>, DependencyError>)
    requires i < |twigs|
    ensures r.Ok? ==> forall k :: 0 <= k < |r.value| ==> r.value[k] < |twigs|
  {
    var unmet := set n | n in twigs[i].dependencies && n !in Names(twigs);
    if unmet != {} then Err(Unmet(twigs[i].name, unmet, Names(twigs)))
    else IndicesNamedMeaning(twigs, twigs[i].dependencies, 0); Ok(IndicesNamed(twigs, twigs[i].dependencies, 0))
  }

  /**
   * The dependencies of a twig are met iff each name it lists is
   * registered; then they are the twigs so named, and otherwise the error
   * names the missing ones and every registered name.
   */
  lemma DependenciesMeaning(twigs: seq<Twig>, i: nat)
    requires i < |twigs|
    ensures var r := Dependencies(twigs, i);
      (r.Err? <==> exists n :: n in twigs[i].dependencies && n !in Names(twigs)) &&
      (r.Err? ==> r.error.Unmet? && r.error.unmet == (set n | n in twigs[i].dependencies && n !in Names(twigs))) &&
      (r.Err? ==> r.error.Unmet? && r.error.available == Names(twigs)) &&
      (r.Ok? ==> forall k :: 0 <= k < |r.value| ==> twigs[r.value[k]].name in twigs[i].dependencies) &&
      (r.Ok? ==> forall n :: n in twigs[i].dependencies ==>
        exists k :: 0 <= k < |r.value| && twigs[r.value[k]].name == n)
  {
    var unmet := set n | n in twigs[i].dependencies && n !in Names(twigs);
    NamesAt(twigs);
    if unmet == {} {
      var r := IndicesNamed(twigs, twigs[i].dependencies, 0);
      IndicesNamedMeaning(twigs, twigs[i].dependencies, 0);
      forall n | n in twigs[i].dependencies ensures exists k :: 0 <= k < |r| && twigs[r[k]].name == n {
        assert n !in unmet;
        assert n in Names(twigs);
        var j :| 0 <= j < |twigs| && Names(twigs)[j] == n;
        assert j in r;
      }
    } else {
      var n :| n in unmet;
    }
  }

  /** Whether a section of the configuration contains the name, normalised as lookups do. */
  predicate Listed(data: Dict<Tree>, section: string, name: string) {
    var v := GetAttr(data, section);
    v.Container? && Contains(v, name)
  }

  /** `name not in disable or name in enable` */
  predicate Allowed(data: Dict<Tree>, name: string) {
    !Listed(data, "disable", name) || Listed(data, "enable", name)
  }

  /**
   * `Twig.enabled`. Python bounds the recursion by its stack; here `fuel`
   * bounds it, and running out is the `RecursionLimit` error. The
   * configuration enters only through the rule `allowed`, which is
   * `n => Allowed(data, n)` for the configuration `data` (see
   * `ConfiguredEnabled`).
   */
  function Enabled(twigs: seq<Twig>, allowed: string -> bool, i: nat, fuel: nat): Result<bool, DependencyError>
    requires i < |twigs|
    decreases fuel, 0, 0
  {
    if fuel == 0 then Err(RecursionLimit)
    else if !allowed(twigs[i].name) then Ok(false)
    else
      var deps :- Dependencies(twigs, i);
      AllDependencies(twigs, allowed, deps, fuel - 1)
  }

  /** `all(dependency.enabled or alternative_available(dependency.name) for ...)` */
  function AllDependencies(twigs: seq<Twig>, allowed: string -> bool, deps: seq<nat>, fuel: nat): Result<bool, DependencyError>
    requires forall k :: 0 <= k < |deps| ==> deps[k] < |twigs|
    decreases fuel, 2, |deps|
  {
    if deps == [] then Ok(true)
    else
      var on :- Enabled(twigs, allowed, deps[0], fuel);
      var ok :- if on then Ok(true) else AlternativeAvailable(twigs, allowed, twigs[deps[0]].name, 0, fuel);
      if !ok then Ok(false) else AllDependencies(twigs, allowed, deps[1..], fuel)
  }

  /** `any(name in twig._provides and twig.enabled for twig in TWIGS)`, from index `from`. */
  function AlternativeAvailable(twigs: seq<Twig>, allowed: string -> bool, name: string, from: nat, fuel: nat): Result<bool, DependencyError>
    requires from <= |twigs|
    decreases fuel, 1, |twigs| - from
  {
    if from == |twigs| then Ok(false)
    else if name !in twigs[from].provided then AlternativeAvailable(twigs, allowed, name, from + 1, fuel)
    else
      var on :- Enabled(twigs, allowed, from, fuel);
      if on then Ok(true) else AlternativeAvailable(twigs, allowed, name, from + 1, fuel)
  }

  /** Whether some twig providing `name` is enabled. */
  predicate SomeProviderEnabled(twigs: seq<Twig>, allowed: string -> bool, name: string, fuel: nat) {
    exists p :: 0 <= p < |twigs| && name in twigs[p].provided && Enabled(twigs, allowed, p, fuel) == Ok(true)
  }

  /** Whether every twig providing `name` is disabled. */
  predicate EveryProviderDisabled(twigs: seq<Twig>, allowed: string -> bool, name: string, fuel: nat) {
    forall p :: 0 <= p < |twigs| && name in twigs[p].provided ==> Enabled(twigs, allowed, p, fuel) == Ok(false)
  }

  /** One step of `AlternativeAvailable`. */
  lemma AlternativeStep(twigs: seq<Twig>, allowed: string -> bool, name: string, from: nat, fuel: nat)
    requires from < |twigs|
    ensures var e := Enabled(twigs, allowed, from, fuel);
      AlternativeAvailable(twigs, allowed, name, from, fuel) ==
        if name !in twigs[from].provided then AlternativeAvailable(twigs, allowed, name, from + 1, fuel)
        else if e.Err? then Err(e.error)
        else if e.value then Ok(true)
        else AlternativeAvailable(twigs, allowed, name, from + 1, fuel)
  {
  }

  /** An alternative is found only when some twig from `from` on provides the name and is enabled. */
  lemma {:induction false} AlternativeFound(twigs: seq<Twig>, allowed: string -> bool, name: string, from: nat, fuel: nat)
    requires from <= |twigs|
    requires AlternativeAvailable(twigs, allowed, name, from, fuel) == Ok(true)
    ensures exists p :: from <= p < |twigs| && name in twigs[p].provided && Enabled(twigs, allowed, p, fuel) == Ok(true)
    decreases |twigs| - from
  {
    assert from < |twigs|;
    AlternativeStep(twigs, allowed, name, from, fuel);
    if name in twigs[from].provided && Enabled(twigs, allowed, from, fuel) == Ok(true) {
      assert from <= from < |twigs|;
    } else {
      AlternativeFound(twigs, allowed, name, from + 1, fuel);
    }
  }

  /** No alternative is found only when every twig from `from` on that provides the name is disabled. */
  lemma {:induction false} AlternativeNone(twigs: seq<Twig>, allowed: string -> bool, name: string, from: nat, fuel: nat)
    requires from <= |twigs|
    requires AlternativeAvailable(twigs, allowed, name, from, fuel) == Ok(false)
    ensures forall p :: from <= p < |twigs| && name in twigs[p].provided ==> Enabled(twigs, allowed, p, fuel) == Ok(false)
    decreases |twigs| - from
  {
    if from < |twigs| {
      AlternativeNoneStep(twigs, allowed, name, from, fuel);
      AlternativeNone(twigs, allowed, name, from + 1, fuel);
    }
  }

  /** When no alternative is found from `from` on, the twig at `from` is disabled if it provides the name, and none is found after it. */
  lemma AlternativeNoneStep(twigs: seq<Twig>, allowed: string -> bool, name: string, from: nat, fuel: nat)
    requires from < |twigs|
    requires AlternativeAvailable(twigs, allowed, name, from, fuel) == Ok(false)
    ensures name in twigs[from].provided ==> Enabled(twigs, allowed, from, fuel) == Ok(false)
    ensures AlternativeAvailable(twigs, allowed, name, from + 1, fuel) == Ok(false)
  {
    AlternativeStep(twigs, allowed, name, from, fuel);
  }

  /** One step of `AllDependencies`. */
  lemma AllDependenciesStep(twigs: seq<Twig>, allowed: string -> bool, deps: seq<nat>, fuel: nat)
    requires forall k :: 0 <= k < |deps| ==> deps[k] < |twigs|
    requires deps != []
    ensures var e := Enabled(twigs, allowed, deps[0], fuel);
      var alt := AlternativeAvailable(twigs, allowed, twigs[deps[0]].name, 0, fuel);
      AllDependencies(twigs, allowed, deps, fuel) ==
        if e.Err? then Err(e.error)
        else if !e.value && alt.Err? then Err(alt.error)
        else if !e.value && !alt.value then Ok(false)
        else AllDependencies(twigs, allowed, deps[1..], fuel)
  {
  }

  lemma {:induction false} AllDependenciesMeaning(twigs: seq<Twig>, allowed: string -> bool, deps: seq<nat>, fuel: nat)
    requires forall k :: 0 <= k < |deps| ==> deps[k] < |twigs|
    ensures AllDependencies(twigs, allowed, deps, fuel) == Ok(true) ==>
      forall k :: 0 <= k < |deps| ==>
        Enabled(twigs, allowed, deps[k], fuel) == Ok(true) || SomeProviderEnabled(twigs, allowed, twigs[deps[k]].name, fuel)
    ensures AllDependencies(twigs, allowed, deps, fuel) == Ok(false) ==>
      exists k :: 0 <= k < |deps| &&
        Enabled(twigs, allowed, deps[k], fuel) == Ok(false) && EveryProviderDisabled(twigs, allowed, twigs[deps[k]].name, fuel)
    decreases |deps|
  {
    if deps != [] {
      var a, e := AllDependencies(twigs, allowed, deps, fuel), Enabled(twigs, allowed, deps[0], fuel);
      var name := twigs[deps[0]].name;
      var alt := AlternativeAvailable(twigs, allowed, name, 0, fuel);
      AllDependenciesMeaning(twigs, allowed, deps[1..], fuel);
      if alt == Ok(true) {
        AlternativeFound(twigs, allowed, name, 0, fuel);
      } else if alt == Ok(false) {
        AlternativeNone(twigs, allowed, name, 0, fuel);
      }
      AllDependenciesStep(twigs, allowed, deps, fuel);
      if a == Ok(true) {
        assert e == Ok(true) || alt == Ok(true);
        forall k | 0 <= k < |deps|
          ensures Enabled(twigs, allowed, deps[k], fuel) == Ok(true) || SomeProviderEnabled(twigs, allowed, twigs[deps[k]].name, fuel)
        {
          if k > 0 {
            assert deps[k] == deps[1..][k - 1];
          }
        }
      }
      if a == Ok(false) {
        if e == Ok(false) && alt == Ok(false) {
          assert EveryProviderDisabled(twigs, allowed, name, fuel);
          assert 0 <= 0 < |deps| && e == Ok(false);
        } else {
          var k :| 0 <= k < |deps[1..]| && Enabled(twigs, allowed, deps[1..][k], fuel) == Ok(false)
            && EveryProviderDisabled(twigs, allowed, twigs[deps[1..][k]].name, fuel);
          assert deps[1..][k] == deps[k + 1];
        }
      }
    }
  }

  /** One step of `Enabled`. */
  lemma EnabledStep(twigs: seq<Twig>, allowed: string -> bool, i: nat, fuel: nat)
    requires i < |twigs| && fuel > 0
    ensures var deps := Dependencies(twigs, i);
      Enabled(twigs, allowed, i, fuel) ==
        if !allowed(twigs[i].name) then Ok(false)
        else if deps.Err? then Err(deps.error)
        else AllDependencies(twigs, allowed, deps.value, fuel - 1)
  {
  }

  /**
   * The rule of `Twig.enabled`, first half: a twig that is not allowed is
   * disabled without looking at its dependencies, so an unmet dependency
   * does not matter then.
   */
  lemma EnabledWhenNotAllowed(twigs: seq<Twig>, allowed: string -> bool, i: nat, fuel: nat)
    requires i < |twigs| && fuel > 0
    ensures !allowed(twigs[i].name) ==> Enabled(twigs, allowed, i, fuel) == Ok(false)
  {
    EnabledStep(twigs, allowed, i, fuel);
  }

  /**
   * An enabled twig is allowed, its dependencies are all registered, and
   * each is enabled or provided by an enabled twig (one level of recursion
   * deeper).
   */
  lemma EnabledTrue(twigs: seq<Twig>, allowed: string -> bool, i: nat, fuel: nat)
    requires i < |twigs|
    requires Enabled(twigs, allowed, i, fuel + 1) == Ok(true)
    ensures allowed(twigs[i].name)
    ensures var deps := Dependencies(twigs, i);
      deps.Ok? && forall k :: 0 <= k < |deps.value| ==>
        Enabled(twigs, allowed, deps.value[k], fuel) == Ok(true) ||
        SomeProviderEnabled(twigs, allowed, twigs[deps.value[k]].name, fuel)
  {
    EnabledStep(twigs, allowed, i, fuel + 1);
    AllDependenciesMeaning(twigs, allowed, Dependencies(twigs, i).value, fuel);
  }

  /**
   * An allowed twig that is disabled has a dependency that is disabled and
   * whose every provider is disabled.
   */
  lemma EnabledFalse(twigs: seq<Twig>, allowed: string -> bool, i: nat, fuel: nat)
    requires i < |twigs|
    requires allowed(twigs[i].name) && Enabled(twigs, allowed, i, fuel + 1) == Ok(false)
    ensures var deps := Dependencies(twigs, i);
      deps.Ok? &&
      exists k ::
        0 <= k < |deps.value| &&
        Enabled(twigs, allowed, deps.value[k], fuel) == Ok(false) &&
        EveryProviderDisabled(twigs, allowed, twigs[deps.value[k]].name, fuel)
  {
    EnabledStep(twigs, allowed, i, fuel + 1);
    AllDependenciesMeaning(twigs, allowed, Dependencies(twigs, i).value, fuel);
  }

  /** `Twig.enabled` under the configuration `data`. */
  function ConfiguredEnabled(twigs: seq<Twig>, data: Dict<Tree>, i: nat, fuel: nat): Result<bool, DependencyError>
    requires i < |twigs|
  {
    Enabled(twigs, n => Allowed(data, n), i, fuel)
  }

  /**
   * A twig listed under `disable` and not under `enable` in the
   * configuration is not enabled, whatever its dependencies.
   */
  lemma DisabledByConfiguration(twigs: seq<Twig>, data: Dict<Tree>, i: nat, fuel: nat)
    requires i < |twigs| && fuel > 0
    requires Listed(data, "disable", twigs[i].name) && !Listed(data, "enable", twigs[i].name)
    ensures ConfiguredEnabled(twigs, data, i, fuel) == Ok(false)
  {
    EnabledWhenNotAllowed(twigs, n => Allowed(data, n), i, fuel);
  }

  // ---------------------------------------------------------------------
  // The registry

  /** The list `TWIGS`, with the twigs it holds and the callbacks they have run. */
  class Registry {
    var twigs: seq<Twig>
    var log: seq<Event>

    predicate Valid()
      reads this
    {
      UniqueNames(twigs)
    }

    constructor()
      ensures Valid() && twigs == [] && log == []
    {
      twigs := [];
      log := [];
    }

    /**
     * `Twig.__init__`: a twig named like a registered one is refused and
     * nothing changes; otherwise it is appended with the default callbacks,
     * copying files iff no registered twig has the same source.
     */
    method Register(installer: StageId, name: string, description: string, dependencies: set<string>,
                    source: Option<string>, versionPath: string, userFiles: seq<string>, systemFiles: seq<string>)
      returns (r: Result<nat, RegistryError>)
      requires Valid()
      modifies this
      ensures Valid() && log == old(log)
      ensures r.Err? <==> name in Names(old(twigs))
      ensures r.Err? ==> r.error == AddedTwice(name) && twigs == old(twigs)
      ensures r.Ok? ==> r.value == |old(twigs)| && twigs == old(twigs) + [Twig(
        name, description, dependencies, {}, source,
        forall t :: t in old(twigs) ==> t.source != source,
        versionPath, installer, [], [], [], [], [], [], None, userFiles, systemFiles)]
    {
      var copyFiles := forall t :: t in twigs ==> t.source != source;
      var i := 0;
      while i < |twigs|
        invariant 0 <= i <= |twigs|
        invariant forall j :: 0 <= j < i ==> twigs[j].name != name
      {
        if twigs[i].name == name {
          NamesAt(twigs);
          assert Names(twigs)[i] == name;
          return Err(AddedTwice(name));
        }
        i := i + 1;
      }
      NamesAt(twigs);
      r := Ok(|twigs|);
      twigs := twigs + [Twig(name, description, dependencies, {}, source, copyFiles, versionPath, installer,
                             [], [], [], [], [], [], None, userFiles, systemFiles)];
    }

    /** The decorators `checker`, `preparer`, `completer`, `remover`, `update_lister` and `update_applier`. */
    method Decorate(i: nat, kind: Kind, f: StageId)
      requires Valid() && i < |twigs|
      modifies this
      ensures Valid() && log == old(log)
      ensures twigs == old(twigs)[i := match kind
        case Checker => old(twigs[i]).(checkers := old(twigs[i]).checkers + [f])
        case Preparer => old(twigs[i]).(preparers := old(twigs[i]).preparers + [f])
        case Completer => old(twigs[i]).(completers := old(twigs[i]).completers + [f])
        case Remover => old(twigs[i]).(removers := old(twigs[i]).removers + [f])
        case UpdateLister => old(twigs[i]).(listers := old(twigs[i]).listers + [f])
        case UpdateApplier => old(twigs[i]).(appliers := old(twigs[i]).appliers + [f])]
    {
      var t := twigs[i];
      var t' := match kind
        case Checker => t.(checkers := t.checkers + [f])
        case Preparer => t.(preparers := t.preparers + [f])
        case Completer => t.(completers := t.completers + [f])
        case Remover => t.(removers := t.removers + [f])
        case UpdateLister => t.(listers := t.listers + [f])
        case UpdateApplier => t.(appliers := t.appliers + [f]);
      twigs := twigs[i := t'];
    }

    /** `Twig.depends`: adds the other twig's name to the dependencies. */
    method Depends(i: nat, other: string)
      requires Valid() && i < |twigs|
      modifies this
      ensures Valid() && log == old(log)
      ensures twigs == old(twigs)[i := old(twigs[i]).(dependencies := old(twigs[i]).dependencies + {other})]
    {
      twigs := twigs[i := twigs[i].(dependencies := twigs[i].dependencies + {other})];
    }

    /** `Twig.provides`: adds a name whose features this twig also provides. */
    method Provides(i: nat, name: string)
      requires Valid() && i < |twigs|
      modifies this
      ensures Valid() && log == old(log)
      ensures twigs == old(twigs)[i := old(twigs[i]).(provided := old(twigs[i]).provided + {name})]
    {
      twigs := twigs[i := twigs[i].(provided := twigs[i].provided + {name})];
    }

    /**
     * `Twig.present`: the checker chain runs only when nothing is cached,
     * and its answer is cached.
     */
    method Present(i: nat, outcome: StageId -> bool) returns (p: bool)
      requires Valid() && i < |twigs|
      modifies this
      ensures Valid()
      ensures old(twigs[i].present).Some? ==>
        p == old(twigs[i].present.value) && twigs == old(twigs) && log == old(log)
      ensures old(twigs[i].present).None? ==>
        var (answer, ran) := Check(old(twigs[i].checkers), outcome);
        p == answer && twigs == old(twigs)[i := old(twigs[i]).(present := Some(p))]
        && log == old(log) + Calls(old(twigs[i].name), ran)
    {
      if twigs[i].present.Some? {
        return twigs[i].present.value;
      }
      var (answer, ran) := Check(twigs[i].checkers, outcome);
      log := log + Calls(twigs[i].name, ran);
      twigs := twigs[i := twigs[i].(present := Some(answer))];
      return answer;
    }

    /** `Twig.install`: runs the installer without checking presence, then forgets the cached presence. */
    method Install(i: nat)
      requires Valid() && i < |twigs|
      modifies this
      ensures Valid()
      ensures twigs == old(twigs)[i := old(twigs[i]).(present := None)]
      ensures log == old(log) + [Call(old(twigs[i].name), old(twigs[i].installer))]
    {
      log := log + [Call(twigs[i].name, twigs[i].installer)];
      twigs := twigs[i := twigs[i].(present := None)];
    }

    /** `Twig.prepare`, `Twig.complete` and `Twig.remove`: the whole chain of that kind runs. */
    method RunChain(i: nat, kind: Kind)
      requires Valid() && i < |twigs| && kind in {Preparer, Completer, Remover}
      modifies this
      ensures twigs == old(twigs) && Valid()
      ensures log == old(log) + Calls(twigs[i].name, RunAll(
        if kind == Preparer then twigs[i].preparers
        else if kind == Completer then twigs[i].completers
        else twigs[i].removers))
    {
      var stages :=
        if kind == Preparer then twigs[i].preparers
        else if kind == Completer then twigs[i].completers
        else twigs[i].removers;
      log := log + Calls(twigs[i].name, RunAll(stages));
    }

    /** `Twig.updates`: the lister chain runs. */
    method Updates(i: nat, lists: StageId -> seq<string>) returns (updates: seq<string>)
      requires Valid() && i < |twigs|
      modifies this
      ensures twigs == old(twigs) && Valid()
      ensures updates == ListUpdates(twigs[i].listers, lists)
      ensures log == old(log) + Calls(twigs[i].name, twigs[i].listers)
    {
      updates := ListUpdates(twigs[i].listers, lists);
      log := log + Calls(twigs[i].name, twigs[i].listers);
    }

    /** `Twig.update`: the applier chain runs. */
    method Update(i: nat, applied: StageId -> Option<string>) returns (instructions: Option<string>)
      requires Valid() && i < |twigs|
      modifies this
      ensures twigs == old(twigs) && Valid()
      ensures instructions == ApplyUpdates(twigs[i].appliers, applied)
      ensures log == old(log) + Calls(twigs[i].name, twigs[i].appliers)
    {
      instructions := ApplyUpdates(twigs[i].appliers, applied);
      log := log + Calls(twigs[i].name, twigs[i].appliers);
    }
  }
}
