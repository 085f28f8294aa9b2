/**
 * The string helpers of the twig package: name normalisation, module names,
 * the names deduced from a defining module, and `${token}` interpolation of
 * command arguments.
 */
module TwigStrings {
  import opened Wrappers
  import opened Text

  /** `s.replace(old, new)` for single characters. */
  function ReplaceChar(s: string, from: char, to: char): (r: string)
    ensures |r| == |s|
    ensures forall i :: 0 <= i < |s| ==> r[i] == if s[i] == from then to else s[i]
  {
    if s == [] then [] else [if s[0] == from then to else s[0]] + ReplaceChar(s[1..], from, to)
  }

  /** `normalize`: dots and underscores become dashes. */
  function Normalize(s: string): (r: string)
    ensures |r| == |s|
    ensures forall i :: 0 <= i < |s| ==> r[i] == if s[i] == '.' || s[i] == '_' then '-' else s[i]
    ensures '.' !in r && '_' !in r
  {
    ReplaceChar(ReplaceChar(s, '.', '-'), '_', '-')
  }

  /** Normalising twice is normalising once. */
  lemma NormalizeIdempotent(s: string)
    ensures Normalize(Normalize(s)) == Normalize(s)
  {
  }

  /** Two names normalise alike iff they differ only in '.', '_' and '-'. */
  lemma NormalizeCollision(a: string, b: string)
    ensures Normalize(a) == Normalize(b) <==>
      |a| == |b| && forall i :: 0 <= i < |a| ==>
        a[i] == b[i] || (a[i] in "._-" && b[i] in "._-")
  {
    if Normalize(a) == Normalize(b) {
      forall i | 0 <= i < |a| ensures a[i] == b[i] || (a[i] in "._-" && b[i] in "._-") {
        assert Normalize(a)[i] == Normalize(b)[i];
      }
    }
  }

  predicate IsModChar(c: char) {
    'a' <= c <= 'z' || 'A' <= c <= 'Z' || '0' <= c <= '9' || c == '_'
  }

  /** `as_mod`: every character outside `[a-zA-Z0-9_]` becomes '_'. */
  function AsMod(s: string): (r: string)
    ensures |r| == |s|
    ensures forall i :: 0 <= i < |s| ==> IsModChar(r[i])
    ensures forall i :: 0 <= i < |s| ==> IsModChar(s[i]) ==> r[i] == s[i]
    ensures forall i :: 0 <= i < |s| ==> !IsModChar(s[i]) ==> r[i] == '_'
  {
    if s == [] then [] else [if IsModChar(s[0]) then s[0] else '_'] + AsMod(s[1..])
  }

  /** `as_mod` sends '.', '_' and '-' alike to '_', so it ignores normalisation. */
  lemma AsModOfNormalized(s: string)
    ensures AsMod(Normalize(s)) == AsMod(s)
    ensures AsMod(AsMod(s)) == AsMod(s)
  {
    var a, b := AsMod(Normalize(s)), AsMod(s);
    forall i | 0 <= i < |s| ensures a[i] == b[i] {
      assert Normalize(s)[i] == if s[i] == '.' || s[i] == '_' then '-' else s[i];
    }
  }

  /** `s.rsplit(sep, 1)[-1]`: what follows the last `sep`, or all of `s`. */
  function LastSegment(s: string, sep: char): (r: string)
    ensures |r| <= |s| && r == s[|s| - |r|..]
    ensures sep !in r
    ensures |r| < |s| ==> s[|s| - |r| - 1] == sep
  {
    if s == [] then []
    else if s[|s| - 1] == sep then []
    else LastSegment(s[..|s| - 1], sep) + [s[|s| - 1]]
  }

  /** `s.rsplit(sep, 1)[0]`: what precedes the last `sep`, or all of `s`. */
  function Stem(s: string, sep: char): (r: string)
    ensures sep in s ==> r + [sep] + LastSegment(s, sep) == s
    ensures sep !in s ==> r == s
  {
    var last := LastSegment(s, sep);
    if |last| < |s| then s[..|s| - |last| - 1] else s
  }

  datatype NamingError = MissingModuleName

  /**
   * `_extract_name`: the last dotted part of the defining module's
   * `__name__`, normalised; a context without a name raises.
   */
  function ExtractName(moduleName: Option<string>): (r: Result<string, NamingError>)
    ensures moduleName.None? <==> r.Err?
    ensures r.Ok? ==> '.' !in r.value && '_' !in r.value
    ensures r.Ok? ==> r.value == Normalize(LastSegment(moduleName.value, '.'))
  {
    match moduleName
    case None => Err(MissingModuleName)
    case Some(n) => Ok(Normalize(LastSegment(n, '.')))
  }

  /** The last segment is whatever follows the final separator. */
  lemma {:induction false} LastSegmentAfter(a: string, sep: char, b: string)
    requires sep !in b
    ensures LastSegment(a + [sep] + b, sep) == b
    decreases |b|
  {
    var s := a + [sep] + b;
    if b != [] {
      assert s[..|s| - 1] == a + [sep] + b[..|b| - 1];
      LastSegmentAfter(a, sep, b[..|b| - 1]);
    }
  }

  /** A twig defined in module `package.module` is named after `module`. */
  lemma ExtractNameOfModule(pkg: string, mod: string)
    requires '.' !in mod
    ensures ExtractName(Some(pkg + "." + mod)) == Ok(Normalize(mod))
  {
    LastSegmentAfter(pkg, '.', mod);
    assert pkg + ['.'] + mod == pkg + "." + mod;
  }

  const VersionFile := "VERSION"

  /**
   * `_extract_version_path`: `VERSION` for a package's `__init__.py`,
   * otherwise `VERSION.` followed by the module file's name without its
   * extension.
   */
  function ExtractVersionPath(file: string): (r: string)
    ensures var name := LastSegment(file, '/');
      (name == "__init__.py" ==> r == VersionFile) &&
      (name != "__init__.py" ==> r == VersionFile + "." + Stem(name, '.'))
    ensures r == VersionFile || r[..|VersionFile| + 1] == VersionFile + "."
  {
    var name := LastSegment(file, '/');
    if name == "__init__.py" then VersionFile else VersionFile + "." + Stem(name, '.')
  }

  /** A twig package keeps its version in `VERSION`. */
  lemma VersionPathOfPackage(directory: string)
    ensures ExtractVersionPath(directory + "/__init__.py") == VersionFile
  {
    LastSegmentAfter(directory, '/', "__init__.py");
    assert directory + ['/'] + "__init__.py" == directory + "/__init__.py";
  }

  /** A twig defined in `stem.py` keeps its version in `VERSION.stem`. */
  lemma VersionPathOfModule(directory: string, stem: string)
    requires '/' !in stem && '.' !in stem && stem != "__init__"
    ensures ExtractVersionPath(directory + "/" + stem + ".py") == VersionFile + "." + stem
  {
    var file, name := directory + "/" + stem + ".py", stem + ".py";
    assert file == directory + ['/'] + name;
    LastSegmentAfter(directory, '/', name);
    assert name == stem + ['.'] + "py";
    LastSegmentAfter(stem, '.', "py");
    assert Stem(name, '.') == stem;
    assert name != "__init__.py" by {
      var init := "__init__.py";
      assert name[..|name| - 3] == stem;
      assert init[..|init| - 3] == "__init__";
    }
  }

  /**
   * `Twig.interpolate`: every match of `\${([^}]+)}`, scanned left to
   * right, is replaced by the mapper's answer for the token, or kept as it
   * is when the mapper answers `None`.
   */
  function Interpolate(s: string, mapper: string -> Option<string>): (r: string)
    decreases |s|
  {
    if s == [] then []
    else if |s| >= 2 && s[0] == '$' && s[1] == '{' && Find(s[2..], "}").Some? && Find(s[2..], "}").value > 0 then
      var j := Find(s[2..], "}").value;
      var replacement := match mapper(s[2..2 + j]) case Some(x) => x case None => s[..j + 3];
      replacement + Interpolate(s[j + 3..], mapper)
    else
      [s[0]] + Interpolate(s[1..], mapper)
  }

  /** A string without '$' has no token to replace. */
  lemma {:induction false} InterpolateWithoutDollar(s: string, mapper: string -> Option<string>)
    requires '$' !in s
    ensures Interpolate(s, mapper) == s
    decreases |s|
  {
    if s != [] {
      InterpolateWithoutDollar(s[1..], mapper);
    }
  }

  /** One step of the scan where a token starts. */
  lemma InterpolateAtToken(s: string, mapper: string -> Option<string>)
    requires |s| >= 2 && s[0] == '$' && s[1] == '{'
    requires Find(s[2..], "}").Some? && Find(s[2..], "}").value > 0
    ensures var j := Find(s[2..], "}").value;
      Interpolate(s, mapper)
        == (match mapper(s[2..2 + j]) case Some(x) => x case None => s[..j + 3]) + Interpolate(s[j + 3..], mapper)
  {
  }

  /** One step of the scan where no token starts. */
  lemma InterpolateAtChar(s: string, mapper: string -> Option<string>)
    requires s != []
    requires !(|s| >= 2 && s[0] == '$' && s[1] == '{' && Find(s[2..], "}").Some? && Find(s[2..], "}").value > 0)
    ensures Interpolate(s, mapper) == [s[0]] + Interpolate(s[1..], mapper)
  {
  }

  /** A mapper that knows no token leaves the string unchanged. */
  lemma {:induction false} InterpolateUnmapped(s: string, mapper: string -> Option<string>)
    requires forall t :: mapper(t).None?
    ensures Interpolate(s, mapper) == s
    decreases |s|
  {
    if s == [] {
    } else if |s| >= 2 && s[0] == '$' && s[1] == '{' && Find(s[2..], "}").Some? && Find(s[2..], "}").value > 0 {
      var j := Find(s[2..], "}").value;
      InterpolateAtToken(s, mapper);
      InterpolateUnmapped(s[j + 3..], mapper);
      assert s[..j + 3] + s[j + 3..] == s;
    } else {
      InterpolateAtChar(s, mapper);
      InterpolateUnmapped(s[1..], mapper);
    }
  }

  /** The closing brace of `${token}` is the first one after the opening. */
  lemma TokenEnd(token: string, rest: string)
    requires token != [] && '}' !in token
    ensures var s := "${" + token + "}" + rest;
      Find(s[2..], "}") == Some(|token|) && s[2..2 + |token|] == token && s[|token| + 3..] == rest
  {
    var s := "${" + token + "}" + rest;
    var t := s[2..];
    assert t == token + "}" + rest;
    assert OccursAt(t, "}", |token|);
    forall j: nat | j < |token| ensures !OccursAt(t, "}", j) {
      assert t[j] == token[j];
    }
  }

  /**
   * A token is replaced by the mapper's answer and scanning resumes after
   * the closing brace: the replacement itself is never scanned again.
   */
  lemma InterpolateToken(token: string, rest: string, mapper: string -> Option<string>)
    requires token != [] && '}' !in token
    ensures Interpolate("${" + token + "}" + rest, mapper)
      == (if mapper(token).Some? then mapper(token).value else "${" + token + "}") + Interpolate(rest, mapper)
  {
    var s := "${" + token + "}" + rest;
    TokenEnd(token, rest);
    InterpolateAtToken(s, mapper);
    assert s[..|token| + 3] == "${" + token + "}";
  }
}
