/**
 * The parts of a twig that talk to the outside world, with the outside world
 * as parameters: `Twig.run` (its flag preconditions, the `${token}`
 * interpolation of its arguments and its rules for what to return or
 * raise, given what the spawned process did), the version stored in a file
 * next to the twig's files, and the update lister and applier that
 * `downloadable` registers.
 */
module TwigCommands {
  import opened Wrappers
  import opened Text
  import opened TwigStrings
  import TwigFiles

  // ---------------------------------------------------------------------
  // Twig.run

  /** The flags of `Twig.run`. */
  datatype RunFlags = RunFlags(check: bool, capture: bool, stream: bool, silent: bool)

  /** The assertions at the top of `Twig.run`. */
  predicate ValidFlags(f: RunFlags) {
    !(f.check && f.capture) && !(f.capture && f.silent) && !(f.stream && !f.capture)
  }

  /** What happened when the command was spawned. */
  datatype Spawn =
      /** `FileNotFoundError`: the executable does not exist. */
    | NotFound
      /** The process ran to completion with this exit code and captured output. */
    | Exited(code: int, output: string)

  /** What `Twig.run` returns. */
  datatype RunValue = Succeeded(ok: bool) | Output(text: string) | Process(command: seq<string>)

  datatype RunError =
      /** The `FileNotFoundError` re-raised when `check` is false. */
    | CommandNotFound
      /** `NestException('Command {} for {} failed with code {}', ...)` */
    | CommandFailed(command: string, twig: string, code: int)

  /** `kwargs.get` as an interpolation mapper. */
  function Lookup(kwargs: map<string, string>): string -> Option<string> {
    t => if t in kwargs then Some(kwargs[t]) else None
  }

  /** The arguments after interpolation: one per argument, in order. */
  function InterpolateArgs(args: seq<string>, kwargs: map<string, string>): (r: seq<string>)
    ensures |r| == |args|
    ensures forall i :: 0 <= i < |args| ==> r[i] == Interpolate(args[i], Lookup(kwargs))
  {
    if args == [] then [] else [Interpolate(args[0], Lookup(kwargs))] + InterpolateArgs(args[1..], kwargs)
  }

  /**
   * `Twig.run`: in stream mode the process itself is returned; otherwise a
   * zero exit code gives the captured output or `True`, a non-zero one gives
   * `False` under `check` and raises otherwise. A missing executable gives
   * `False` under `check` and raises otherwise.
   */
  function Run(twig: string, args: seq<string>, kwargs: map<string, string>, flags: RunFlags,
               spawn: seq<string> -> Spawn): Result<RunValue, RunError>
    requires ValidFlags(flags)
  {
    var command := InterpolateArgs(args, kwargs);
    match spawn(command)
    case NotFound => if flags.check then Ok(Succeeded(false)) else Err(CommandNotFound)
    case Exited(code, output) =>
      if flags.stream then Ok(Process(command))
      else if code == 0 then (if flags.capture then Ok(Output(output)) else Ok(Succeeded(true)))
      else if flags.check then Ok(Succeeded(false))
      else Err(CommandFailed(Join(" ", command), twig, code))
  }

  /** Under `check`, `run` never raises; it answers whether the command succeeded. */
  lemma RunCheckedNeverRaises(twig: string, args: seq<string>, kwargs: map<string, string>, flags: RunFlags,
                              spawn: seq<string> -> Spawn)
    requires ValidFlags(flags) && flags.check
    ensures var r := Run(twig, args, kwargs, flags, spawn);
      var s := spawn(InterpolateArgs(args, kwargs));
      r.Ok? && (flags.stream || r.value == Succeeded(s.Exited? && s.code == 0))
  {
  }

  /**
   * Without `check`, `run` raises iff the executable is missing or the
   * command (not streamed) exits non-zero, and the failure names the
   * interpolated command line.
   */
  lemma RunRaises(twig: string, args: seq<string>, kwargs: map<string, string>, flags: RunFlags,
                  spawn: seq<string> -> Spawn)
    requires ValidFlags(flags) && !flags.check
    ensures var r := Run(twig, args, kwargs, flags, spawn);
      var command := InterpolateArgs(args, kwargs);
      var s := spawn(command);
      (r.Err? <==> s.NotFound? || (!flags.stream && s.code != 0)) &&
      (r.Err? && s.Exited? ==> r.error == CommandFailed(Join(" ", command), twig, s.code))
  {
  }

  /** A successful run gives the output when capturing and `True` otherwise. */
  lemma RunSucceeds(twig: string, args: seq<string>, kwargs: map<string, string>, flags: RunFlags,
                    spawn: seq<string> -> Spawn)
    requires ValidFlags(flags) && !flags.stream
    requires spawn(InterpolateArgs(args, kwargs)).Exited? && spawn(InterpolateArgs(args, kwargs)).code == 0
    ensures Run(twig, args, kwargs, flags, spawn) ==
      if flags.capture then Ok(Output(spawn(InterpolateArgs(args, kwargs)).output)) else Ok(Succeeded(true))
  {
  }

  /** Arguments without a `$` reach the process unchanged. */
  lemma {:induction false} PlainArgsUnchanged(args: seq<string>, kwargs: map<string, string>)
    requires forall i :: 0 <= i < |args| ==> '$' !in args[i]
    ensures InterpolateArgs(args, kwargs) == args
  {
    forall i | 0 <= i < |args| ensures InterpolateArgs(args, kwargs)[i] == args[i] {
      InterpolateWithoutDollar(args[i], Lookup(kwargs));
    }
  }

  // ---------------------------------------------------------------------
  // Twig.stored_version

  type Path = TwigFiles.Path

  /** The files the version is read from and written to, by absolute path. */
  type FileStore = map<Path, string>

  datatype VersionError = VersionMissing(file: Path)

  /** `source.parent`: the root has no parent but itself. */
  function Parent(p: Path): (r: Path)
    ensures p != [] ==> r + [p[|p| - 1]] == p
  {
    if p == [] then [] else p[..|p| - 1]
  }

  /** `source.parent / version_path` */
  function VersionFile(source: Path, versionPath: string): Path {
    Parent(source) + [versionPath]
  }

  /** The getter: the file's text, stripped; a missing file raises. */
  function StoredVersion(fs: FileStore, source: Path, versionPath: string): (r: Result<string, VersionError>)
    ensures r.Err? <==> VersionFile(source, versionPath) !in fs
    ensures r.Err? ==> r.error == VersionMissing(VersionFile(source, versionPath))
  {
    var file := VersionFile(source, versionPath);
    if file in fs then Ok(Strip(fs[file])) else Err(VersionMissing(file))
  }

  /** The setter: the value and a newline, replacing the file. */
  function SetStoredVersion(fs: FileStore, source: Path, versionPath: string, value: string): (r: FileStore)
    ensures VersionFile(source, versionPath) in r
    ensures forall p :: p != VersionFile(source, versionPath) ==> (p in r <==> p in fs) && (p in fs ==> r[p] == fs[p])
  {
    fs[VersionFile(source, versionPath) := value + "\n"]
  }

  /**
   * Reading back a stored version gives it stripped, and exactly as
   * written when it has no surrounding whitespace.
   */
  lemma StoredVersionRoundTrip(fs: FileStore, source: Path, versionPath: string, value: string)
    ensures StoredVersion(SetStoredVersion(fs, source, versionPath, value), source, versionPath) == Ok(Strip(value))
    ensures Strip(value) == value ==>
      StoredVersion(SetStoredVersion(fs, source, versionPath, value), source, versionPath) == Ok(value)
  {
    StripAppendSpace(value, '\n');
  }

  // ---------------------------------------------------------------------
  // downloadable

  /**
   * The update lister of `downloadable`: the latest version when there is
   * one and it differs from the stored one. The stored version is read only
   * when a latest version is known.
   */
  function DownloadUpdates(latest: Option<string>, stored: Result<string, VersionError>): (r: Result<seq<string>, VersionError>)
    ensures latest.None? ==> r == Ok([])
    ensures latest.Some? && stored.Err? ==> r == Err(stored.error)
    ensures latest.Some? && stored.Ok? ==> r.Ok? && (r.value != [] <==> latest.value != stored.value)
    ensures r.Ok? && r.value != [] ==> r.value == [latest.value]
  {
    if latest.None? then Ok([])
    else
      var current :- stored;
      if latest.value != current then Ok([latest.value]) else Ok([])
  }

  /** What the update applier of `downloadable` does, in order. */
  datatype DownloadStep = RemoveTwig | StoreVersion(version: string) | InstallTwig

  /**
   * The update applier of `downloadable`: with a latest version known, the
   * twig is removed, the version stored, and the twig installed; it returns
   * no instructions.
   */
  function DownloadApply(latest: Option<string>): (r: seq<DownloadStep>)
    ensures latest.None? <==> r == []
    ensures latest.Some? ==> r[|r| - 1] == InstallTwig && StoreVersion(latest.value) in r
  {
    if latest.None? then [] else [RemoveTwig, StoreVersion(latest.value), InstallTwig]
  }

  /** The effect of the steps on the version file. */
  function ApplySteps(fs: FileStore, source: Path, versionPath: string, steps: seq<DownloadStep>): FileStore
    decreases |steps|
  {
    if steps == [] then fs
    else
      var fs' := if steps[0].StoreVersion? then SetStoredVersion(fs, source, versionPath, steps[0].version) else fs;
      ApplySteps(fs', source, versionPath, steps[1..])
  }

  /** Of the applier's steps only storing the version touches the file. */
  lemma {:induction false} ApplyStoresVersion(fs: FileStore, source: Path, versionPath: string, version: string)
    ensures ApplySteps(fs, source, versionPath, DownloadApply(Some(version)))
      == SetStoredVersion(fs, source, versionPath, version)
  {
    var steps := DownloadApply(Some(version));
    var fs1 := SetStoredVersion(fs, source, versionPath, version);
    assert steps[1..] == [StoreVersion(version), InstallTwig];
    assert steps[1..][1..] == [InstallTwig];
    calc {
      ApplySteps(fs, source, versionPath, steps);
      ApplySteps(fs, source, versionPath, steps[1..]);
      ApplySteps(fs1, source, versionPath, steps[1..][1..]);
      ApplySteps(fs1, source, versionPath, [InstallTwig][1..]);
    }
  }

  /**
   * After the applier ran, the lister reports nothing for the same latest
   * version, as long as the version string carries no surrounding
   * whitespace.
   */
  lemma ApplyThenNoUpdates(fs: FileStore, source: Path, versionPath: string, latest: Option<string>)
    requires latest.Some? ==> Strip(latest.value) == latest.value
    ensures var fs' := ApplySteps(fs, source, versionPath, DownloadApply(latest));
      DownloadUpdates(latest, StoredVersion(fs', source, versionPath)) == Ok([])
  {
    if latest.Some? {
      ApplyStoresVersion(fs, source, versionPath, latest.value);
      StoredVersionRoundTrip(fs, source, versionPath, latest.value);
    }
  }
}
