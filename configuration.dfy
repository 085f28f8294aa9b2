/**
 * The layered configuration store (`src/nest/twigs/configuration.py`).
 *
 * The INI parser is not part of the model: each file arrives as the list of
 * sections the parser yields, in order, each with its header and its
 * entries. A header `name :: predicate` keeps its section only when the
 * predicate holds for the distribution facts; the entries then land at the
 * dotted path `name`. The files are deep-merged in order, on top of the two
 * reserved sections `env` (the facts) and `submodules` (the paths listed in
 * `.gitmodules`). Lookups go through `Container` and `Value` views that never
 * raise on a missing key.
 */
module Configuration {
  import opened Wrappers
  import opened Text
  import opened Dicts
  import Expression
  import opened TwigStrings

  /** The string separating a section name from its predicate. */
  const Separator := "::"
  const EnvSection := "env"
  const SubmodulesSection := "submodules"

  /** A stored value: an entry (a string, or `None` for a bare key), a fact, the submodule paths, or a table. */
  datatype Tree = Leaf(value: Expression.Scalar) | Paths(paths: seq<string>) | Table(entries: Dict<Tree>)

  /** One section as the INI parser yields it; a key without a value maps to `None`. */
  datatype RawSection = RawSection(header: string, entries: seq<(string, Option<string>)>)

  /** One configuration file, already parsed. */
  datatype ParsedFile = ParsedFile(filename: string, sections: seq<RawSection>)

  /** A section after `_extract_sections`. */
  datatype Section = Section(name: string, condition: Expression.Compiled, entries: Dict<Tree>)

  /** Why extracting the sections of one file fails. */
  datatype ExtractError =
    | ExpressionError(cause: Expression.Error)
      /** `AttributeError`: the section's path runs through a value that is not a table. */
    | ThroughValue(section: string)

  /** Why building a configuration fails. */
  datatype LoadError =
      /** A `ValueError` from one file, re-raised with the file name. */
    | InFile(filename: string, cause: Expression.Error)
      /** A `TypeError` from comparing incomparable values; it is not re-raised. */
    | Incomparable(cause: Expression.Error)
    | NotATable(section: string)
    | Reserved(section: string)
      /** `IndexError`: a fact with an empty name. */
    | EmptyFactName
      /** A table merged into a value that is not a table. */
    | MergeIntoValue(key: string)

  // ---------------------------------------------------------------------
  // _extract_sections

  /** Splits a header into its stripped name and predicate (`True` when absent). */
  function SplitHeader(header: string): (r: (string, string))
    ensures (forall j: nat :: !OccursAt(header, Separator, j)) ==> r == (Strip(header), "True")
  {
    match SplitOnce(header, Separator)
    case None => (Strip(header), "True")
    case Some((name, condition)) => (Strip(name), Strip(condition))
  }

  /** With a separator, the header is split at its first occurrence. */
  lemma SplitHeaderAtFirst(header: string, i: nat)
    requires OccursAt(header, Separator, i)
    requires forall j: nat :: j < i ==> !OccursAt(header, Separator, j)
    ensures SplitHeader(header) == (Strip(header[..i]), Strip(header[i + |Separator|..]))
  {
    var p := SplitOnce(header, Separator);
    assert p.Some?;
    var (a, b) := p.value;
    assert OccursAt(header, Separator, |a|) by {
      assert header[|a|..|a| + |Separator|] == Separator;
    }
    assert |a| == i;
    assert a == header[..i];
    assert b == header[i + |Separator|..];
  }

  /** The value an entry of the file is stored as. */
  function EntryValue(v: Option<string>): Tree {
    match v
    case Some(s) => Leaf(Expression.Str(s))
    case None => Leaf(Expression.NoneValue)
  }

  /** `{normalize(k): v for (k, v) in d.items()}`, building on `acc`. */
  function NormalizeInto(acc: Dict<Tree>, d: Dict<Tree>): (r: Dict<Tree>)
    requires UniqueKeys(acc)
    ensures UniqueKeys(r)
    decreases |d|
  {
    if d == [] then acc
    else
      PutUnique(acc, Normalize(d[0].0), d[0].1);
      NormalizeInto(Put(acc, Normalize(d[0].0), d[0].1), d[1..])
  }

  /** Entry `i` of `d` is the last one whose key normalises to `k`. */
  predicate LastWith<V>(d: seq<(string, V)>, k: string, i: int) {
    0 <= i < |d| && Normalize(d[i].0) == k &&
    forall j :: i < j < |d| ==> Normalize(d[j].0) != k
  }

  /** No entry of `d` has a key that normalises to `k`. */
  predicate NoneWith<V>(d: seq<(string, V)>, k: string) {
    forall j :: 0 <= j < |d| ==> Normalize(d[j].0) != k
  }

  /** A key no entry normalises to keeps what `acc` held under it. */
  lemma {:induction false} NormalizeMissing(acc: Dict<Tree>, d: Dict<Tree>, k: string)
    requires UniqueKeys(acc) && NoneWith(d, k)
    ensures Get(NormalizeInto(acc, d), k) == Get(acc, k)
    decreases |d|
  {
    if d != [] {
      PutUnique(acc, Normalize(d[0].0), d[0].1);
      var acc' := Put(acc, Normalize(d[0].0), d[0].1);
      assert Normalize(d[0].0) != k;
      NormalizeMissing(acc', d[1..], k);
    }
  }

  /** Of the keys that normalise alike, the last one's value is kept. */
  lemma {:induction false} NormalizeLastWins(acc: Dict<Tree>, d: Dict<Tree>, k: string, i: int)
    requires UniqueKeys(acc) && LastWith(d, k, i)
    ensures Get(NormalizeInto(acc, d), k) == Some(d[i].1)
    decreases |d|
  {
    PutUnique(acc, Normalize(d[0].0), d[0].1);
    var acc' := Put(acc, Normalize(d[0].0), d[0].1);
    if i == 0 {
      assert NoneWith(d[1..], k) by {
        forall j | 0 <= j < |d[1..]| ensures Normalize(d[1..][j].0) != k {
          assert d[1..][j] == d[j + 1];
        }
      }
      NormalizeMissing(acc', d[1..], k);
    } else {
      assert LastWith(d[1..], k, i - 1) by {
        forall j | i - 1 < j < |d[1..]| ensures Normalize(d[1..][j].0) != k {
          assert d[1..][j] == d[j + 1];
        }
      }
      NormalizeLastWins(acc', d[1..], k, i - 1);
    }
  }

  /** Every key of `d`, normalised, is stored with its last value, and nothing else changes. */
  lemma NormalizeAll(acc: Dict<Tree>, d: Dict<Tree>)
    requires UniqueKeys(acc)
    ensures forall k, i :: LastWith(d, k, i) ==> Get(NormalizeInto(acc, d), k) == Some(d[i].1)
    ensures forall k :: NoneWith(d, k) ==> Get(NormalizeInto(acc, d), k) == Get(acc, k)
  {
    forall k, i | LastWith(d, k, i) ensures Get(NormalizeInto(acc, d), k) == Some(d[i].1) {
      NormalizeLastWins(acc, d, k, i);
    }
    forall k | NoneWith(d, k) ensures Get(NormalizeInto(acc, d), k) == Get(acc, k) {
      NormalizeMissing(acc, d, k);
    }
  }

  /** The entries of a raw section, with their keys normalised. */
  function SectionEntries(entries: seq<(string, Option<string>)>): (r: Dict<Tree>)
    ensures UniqueKeys(r)
    ensures forall k, i :: LastWith(entries, k, i) ==> Get(r, k) == Some(EntryValue(entries[i].1))
    ensures forall k :: NoneWith(entries, k) ==> Get(r, k).None?
  {
    var d := seq(|entries|, i requires 0 <= i < |entries| => (entries[i].0, EntryValue(entries[i].1)));
    assert forall k, i :: LastWith(entries, k, i) ==> LastWith(d, k, i);
    assert forall k :: NoneWith(entries, k) ==> NoneWith(d, k);
    NormalizeAll([], d);
    NormalizeInto([], d)
  }

  /** `_extract_sections` for one section; compiling its predicate may fail. */
  function ExtractSection(raw: RawSection, parse: string -> Option<Expression.Node>): (r: Result<Section, Expression.Error>)
    ensures r.Err? <==> parse(SplitHeader(raw.header).1).None?
    ensures r.Ok? ==> r.value.name == SplitHeader(raw.header).0 && r.value.entries == SectionEntries(raw.entries)
  {
    var (name, condition) := SplitHeader(raw.header);
    var compiled :- Expression.Compile(condition, parse);
    Ok(Section(name, compiled, SectionEntries(raw.entries)))
  }

  // ---------------------------------------------------------------------
  // _extract_values

  /** The value at a path of nested tables. */
  function At(d: Dict<Tree>, path: seq<string>): Option<Tree>
    requires path != []
    decreases |path|
  {
    match Get(d, path[0])
    case None => None
    case Some(t) =>
      if |path| == 1 then Some(t)
      else if t.Table? then At(t.entries, path[1..])
      else None
  }

  /**
   * `reduce(recurse, parts, result).update(entries)`: walks down `parts`,
   * creating empty tables where none exist, and updates the table reached.
   */
  function InsertAt(d: Dict<Tree>, parts: seq<string>, entries: Dict<Tree>): (r: Result<Dict<Tree>, string>)
    requires parts != [] && UniqueKeys(entries)
    decreases |parts|
  {
    match Get(d, parts[0]).GetOr(Table([]))
    case Table(child) =>
      if |parts| == 1 then Ok(Put(d, parts[0], Table(Update(child, entries))))
      else
        var child' :- InsertAt(child, parts[1..], entries);
        Ok(Put(d, parts[0], Table(child')))
    case _ => Err(parts[0])
  }

  /** After an insertion, every entry of the section is found under its path. */
  lemma {:induction false} InsertAtStores(d: Dict<Tree>, parts: seq<string>, entries: Dict<Tree>, k: string)
    requires parts != [] && UniqueKeys(entries)
    requires InsertAt(d, parts, entries).Ok? && k in Keys(entries)
    ensures At(InsertAt(d, parts, entries).value, parts + [k]) == Get(entries, k)
    decreases |parts|
  {
    var r := InsertAt(d, parts, entries).value;
    var child := Get(d, parts[0]).GetOr(Table([]));
    assert (parts + [k])[0] == parts[0];
    if |parts| == 1 {
      assert (parts + [k])[1..] == [k];
    } else {
      InsertAtStores(child.entries, parts[1..], entries, k);
      assert (parts + [k])[1..] == parts[1..] + [k];
    }
  }

  /** `_extract_values`, one section at a time: a section whose predicate is false is dropped. */
  function ExtractStep(acc: Dict<Tree>, raw: RawSection, env: Expression.Environment,
                       parse: string -> Option<Expression.Node>): (r: Result<Dict<Tree>, ExtractError>)
  {
    match ExtractSection(raw, parse)
    case Err(e) => Err(ExpressionError(e))
    case Ok(section) =>
      match Expression.Evaluate(section.condition, env)
      case Err(e) => Err(ExpressionError(e))
      case Ok(v) =>
        if !Expression.Truthy(v) then Ok(acc)
        else
          match InsertAt(acc, SplitOn(section.name, "."), section.entries)
          case Err(key) => Err(ThroughValue(key))
          case Ok(d) => Ok(d)
  }

  /** The sections of one file folded into a dictionary from left to right. */
  function ExtractFrom(acc: Dict<Tree>, sections: seq<RawSection>, env: Expression.Environment,
                       parse: string -> Option<Expression.Node>): Result<Dict<Tree>, ExtractError>
    decreases |sections|
  {
    if sections == [] then Ok(acc)
    else
      var acc' :- ExtractStep(acc, sections[0], env, parse);
      ExtractFrom(acc', sections[1..], env, parse)
  }

  /** `Configuration._extract_values` */
  method ExtractValues(sections: seq<RawSection>, env: Expression.Environment,
                       parse: string -> Option<Expression.Node>) returns (r: Result<Dict<Tree>, ExtractError>)
    ensures r == ExtractFrom([], sections, env, parse)
  {
    var result: Dict<Tree> := [];
    var i := 0;
    while i < |sections|
      invariant 0 <= i <= |sections|
      invariant ExtractFrom(result, sections[i..], env, parse) == ExtractFrom([], sections, env, parse)
    {
      assert sections[i..][1..] == sections[i + 1..];
      var step := ExtractStep(result, sections[i], env, parse);
      if step.Err? {
        return Err(step.error);
      }
      result := step.value;
      i := i + 1;
    }
    return Ok(result);
  }

  /** A section whose predicate evaluates to a false value changes nothing. */
  lemma FalseSectionDropped(acc: Dict<Tree>, raw: RawSection, env: Expression.Environment,
                            parse: string -> Option<Expression.Node>)
    requires ExtractSection(raw, parse).Ok?
    requires var v := Expression.Evaluate(ExtractSection(raw, parse).value.condition, env);
      v.Ok? && !Expression.Truthy(v.value)
    ensures ExtractStep(acc, raw, env, parse) == Ok(acc)
  {
  }

  /**
   * A section whose predicate holds stores each of its entries under its
   * dotted path: within a file, the later section's key wins.
   */
  lemma TrueSectionStored(acc: Dict<Tree>, raw: RawSection, env: Expression.Environment,
                          parse: string -> Option<Expression.Node>, k: string)
    requires ExtractSection(raw, parse).Ok?
    requires var v := Expression.Evaluate(ExtractSection(raw, parse).value.condition, env);
      v.Ok? && Expression.Truthy(v.value)
    requires ExtractStep(acc, raw, env, parse).Ok?
    requires k in Keys(ExtractSection(raw, parse).value.entries)
    ensures var section := ExtractSection(raw, parse).value;
      At(ExtractStep(acc, raw, env, parse).value, SplitOn(section.name, ".") + [k]) == Get(section.entries, k)
  {
    var section := ExtractSection(raw, parse).value;
    InsertAtStores(acc, SplitOn(section.name, "."), section.entries, k);
  }

  // ---------------------------------------------------------------------
  // merge

  /**
   * The inner `merge` of `Configuration.__init__`: the entries of `b` are
   * assigned into `a` in order, tables merged recursively into whatever `a`
   * holds under the same key (an empty table when nothing), anything else
   * replacing it. Merging into a value that is not a table fails unless
   * there is nothing to merge.
   */
  function Merged(a: Tree, b: Dict<Tree>): Result<Tree, LoadError>
    decreases b, 1
  {
    if b == [] then Ok(a)
    else if !a.Table? then Err(MergeIntoValue(b[0].0))
    else
      assert b[0].1 < b[0] && b[0] in b;
      var v := MergedValue(a.entries, b[0].0, b[0].1);
      var nv :- v;
      Merged(Table(Put(a.entries, b[0].0, nv)), b[1..])
  }

  /** The value `merge` assigns to `a[k]` for `b[k] == v`. */
  function MergedValue(a: Dict<Tree>, k: string, v: Tree): Result<Tree, LoadError>
    decreases v, 0
  {
    if v.Table? then Merged(Get(a, k).GetOr(Table([])), v.entries) else Ok(v)
  }

  /** One assignment of the merge loop. */
  lemma MergedStep(entries: Dict<Tree>, b: Dict<Tree>)
    requires b != []
    ensures var v := MergedValue(entries, b[0].0, b[0].1);
      Merged(Table(entries), b) ==
        if v.Err? then Err(v.error) else Merged(Table(Put(entries, b[0].0, v.value)), b[1..])
  {
  }

  /** `merge(a, b)`, assigning in a loop and recursing for nested tables. */
  method Merge(a: Tree, b: Dict<Tree>) returns (r: Result<Tree, LoadError>)
    ensures r == Merged(a, b)
    decreases b, 1
  {
    if b == [] {
      return Ok(a);
    }
    if !a.Table? {
      return Err(MergeIntoValue(b[0].0));
    }
    var entries := a.entries;
    var i := 0;
    while i < |b|
      invariant 0 <= i <= |b|
      invariant Merged(Table(entries), b[i..]) == Merged(a, b)
    {
      var k, v := b[i].0, b[i].1;
      ghost var rest := b[i..];
      assert rest[0] == b[i] && rest[1..] == b[i + 1..];
      MergedStep(entries, rest);
      assert v < b[i] && b[i] in b;
      var m := MergeValue(entries, k, v);
      if m.Err? {
        return Err(m.error);
      }
      entries := Put(entries, k, m.value);
      i := i + 1;
    }
    return Ok(Table(entries));
  }

  /** One assignment of the loop: a table is merged into what is there, anything else replaces it. */
  method MergeValue(entries: Dict<Tree>, k: string, v: Tree) returns (r: Result<Tree, LoadError>)
    ensures r == MergedValue(entries, k, v)
    decreases v, 0
  {
    if v.Table? {
      r := Merge(Get(entries, k).GetOr(Table([])), v.entries);
    } else {
      r := Ok(v);
    }
  }

  /** What merging does to one key: a later value that is not a table replaces the earlier one. */
  lemma {:induction false} MergedKey(a: Dict<Tree>, b: Dict<Tree>, k: string)
    requires UniqueKeys(b) && Merged(Table(a), b).Ok?
    ensures Merged(Table(a), b).value.Table?
    ensures var r := Merged(Table(a), b).value.entries;
      if k in Keys(b) then
        MergedValue(a, k, Get(b, k).value).Ok? && Get(r, k) == Some(MergedValue(a, k, Get(b, k).value).value)
      else Get(r, k) == Get(a, k)
    decreases |b|
  {
    if b != [] {
      var nv := MergedValue(a, b[0].0, b[0].1).value;
      var a' := Put(a, b[0].0, nv);
      var kb := Keys(b);
      assert kb == [b[0].0] + Keys(b[1..]);
      assert Keys(b[1..]) == kb[1..];
      assert UniqueKeys(b[1..]) by {
        forall i, j | 0 <= i < j < |kb| - 1 ensures kb[1..][i] != kb[1..][j] {
          assert kb[i + 1] != kb[j + 1];
        }
      }
      assert b[0].0 !in Keys(b[1..]) by {
        forall j | 0 <= j < |kb| - 1 ensures kb[1..][j] != kb[0] {
          assert kb[0] != kb[j + 1];
        }
      }
      MergedKey(a', b[1..], k);
      if k in Keys(b[1..]) {
        assert Get(b, k) == Get(b[1..], k);
        assert Get(a', k) == Get(a, k);
      }
    }
  }

  // ---------------------------------------------------------------------
  // Configuration.__init__

  /** `{k: v for k, v in env.items() if k[0] != '_'}`; an empty name raises. */
  function EnvEntries(env: Dict<Expression.Scalar>): (r: Result<Dict<Tree>, LoadError>)
    ensures r.Err? <==> "" in Keys(env)
    decreases |env|
  {
    if env == [] then Ok([])
    else if env[0].0 == "" then Err(EmptyFactName)
    else
      var rest :- EnvEntries(env[1..]);
      Ok(if env[0].0[0] == '_' then rest else [(env[0].0, Leaf(env[0].1))] + rest)
  }

  /** The `env` section holds exactly the facts whose names do not start with '_'. */
  lemma {:induction false} EnvEntriesContent(env: Dict<Expression.Scalar>, k: string)
    requires EnvEntries(env).Ok? && k != ""
    ensures Get(EnvEntries(env).value, k) ==
      if k[0] == '_' then None
      else match Get(env, k) case None => None case Some(v) => Some(Leaf(v))
    decreases |env|
  {
    if env != [] {
      EnvEntriesContent(env[1..], k);
    }
  }

  /** The facts as the environment the section predicates are evaluated in. */
  function FactMap(env: Dict<Expression.Scalar>): (m: Expression.Environment)
    ensures forall k :: k in m <==> k in Keys(env)
    decreases |env|
  {
    if env == [] then map[] else FactMap(env[1..])[env[0].0 := env[0].1]
  }

  /** The sections extracted from one file, merged into `data` one by one. */
  function MergeSections(data: Dict<Tree>, values: Dict<Tree>): Result<Dict<Tree>, LoadError>
    decreases |values|
  {
    if values == [] then Ok(data)
    else
      var (section, t) := values[0];
      if section == EnvSection || section == SubmodulesSection then Err(Reserved(section))
      else if !t.Table? then Err(NotATable(section))
      else
        var merged :- Merged(Get(data, section).GetOr(Table([])), t.entries);
        MergeSections(Put(data, section, merged), values[1..])
  }

  /** The error `_extract_values` raises, as it leaves `Configuration.__init__`. */
  function FileError(filename: string, e: ExtractError): LoadError {
    match e
    case ExpressionError(cause) => if cause.IsValueError() then InFile(filename, cause) else Incomparable(cause)
    case ThroughValue(key) => NotATable(key)
  }

  /** The files loaded in order on top of `data`. */
  function LoadFrom(data: Dict<Tree>, files: seq<ParsedFile>, env: Dict<Expression.Scalar>,
                    parse: string -> Option<Expression.Node>): Result<Dict<Tree>, LoadError>
    decreases |files|
  {
    if files == [] then Ok(data)
    else
      match ExtractFrom([], files[0].sections, FactMap(env), parse)
      case Err(e) => Err(FileError(files[0].filename, e))
      case Ok(values) =>
        var data' :- MergeSections(data, values);
        LoadFrom(data', files[1..], env, parse)
  }

  /** The data before any file is read. */
  function Initial(submodules: seq<string>, env: Dict<Expression.Scalar>): Result<Dict<Tree>, LoadError> {
    var facts :- EnvEntries(env);
    Ok([(EnvSection, Table(facts)), (SubmodulesSection, Paths(submodules))])
  }

  /** `Configuration.__init__`: what `_data` wraps. */
  function Loaded(submodules: seq<string>, files: seq<ParsedFile>, env: Dict<Expression.Scalar>,
                  parse: string -> Option<Expression.Node>): Result<Dict<Tree>, LoadError>
  {
    var data :- Initial(submodules, env);
    LoadFrom(data, files, env, parse)
  }

  /** `Configuration.__init__`, updating `data` section by section. */
  method Load(submodules: seq<string>, files: seq<ParsedFile>, env: Dict<Expression.Scalar>,
              parse: string -> Option<Expression.Node>) returns (r: Result<Dict<Tree>, LoadError>)
    ensures r == Loaded(submodules, files, env, parse)
  {
    var initial := Initial(submodules, env);
    if initial.Err? {
      return Err(initial.error);
    }
    var data := initial.value;
    var i := 0;
    while i < |files|
      invariant 0 <= i <= |files|
      invariant LoadFrom(data, files[i..], env, parse) == Loaded(submodules, files, env, parse)
    {
      assert files[i..][1..] == files[i + 1..];
      var values := ExtractValues(files[i].sections, FactMap(env), parse);
      if values.Err? {
        return Err(FileError(files[i].filename, values.error));
      }
      var j := 0;
      var start := data;
      while j < |values.value|
        invariant 0 <= j <= |values.value|
        invariant MergeSections(data, values.value[j..]) == MergeSections(start, values.value)
      {
        var (section, t) := values.value[j];
        assert values.value[j..][1..] == values.value[j + 1..];
        if section == EnvSection || section == SubmodulesSection {
          return Err(Reserved(section));
        }
        if !t.Table? {
          return Err(NotATable(section));
        }
        var merged := Merge(Get(data, section).GetOr(Table([])), t.entries);
        if merged.Err? {
          return Err(merged.error);
        }
        data := Put(data, section, merged.value);
        j := j + 1;
      }
      i := i + 1;
    }
    return Ok(data);
  }

  /** No file can change the reserved sections: a loaded configuration keeps them as built. */
  lemma {:induction false} ReservedKept(data: Dict<Tree>, files: seq<ParsedFile>, env: Dict<Expression.Scalar>,
                                        parse: string -> Option<Expression.Node>)
    requires LoadFrom(data, files, env, parse).Ok?
    ensures Get(LoadFrom(data, files, env, parse).value, EnvSection) == Get(data, EnvSection)
    ensures Get(LoadFrom(data, files, env, parse).value, SubmodulesSection) == Get(data, SubmodulesSection)
    decreases |files|
  {
    if files != [] {
      var values := ExtractFrom([], files[0].sections, FactMap(env), parse).value;
      MergeSectionsKeepsReserved(data, values);
      ReservedKept(MergeSections(data, values).value, files[1..], env, parse);
    }
  }

  lemma {:induction false} MergeSectionsKeepsReserved(data: Dict<Tree>, values: Dict<Tree>)
    requires MergeSections(data, values).Ok?
    ensures Get(MergeSections(data, values).value, EnvSection) == Get(data, EnvSection)
    ensures Get(MergeSections(data, values).value, SubmodulesSection) == Get(data, SubmodulesSection)
    decreases |values|
  {
    if values != [] {
      var (section, t) := values[0];
      var merged := Merged(Get(data, section).GetOr(Table([])), t.entries).value;
      MergeSectionsKeepsReserved(Put(data, section, merged), values[1..]);
    }
  }

  /** A file selecting a reserved section makes the whole configuration fail. */
  lemma {:induction false} ReservedRejected(data: Dict<Tree>, values: Dict<Tree>)
    requires EnvSection in Keys(values) || SubmodulesSection in Keys(values)
    ensures MergeSections(data, values).Err?
    decreases |values|
  {
    var (section, t) := values[0];
    if section != EnvSection && section != SubmodulesSection && t.Table? {
      var merged := Merged(Get(data, section).GetOr(Table([])), t.entries);
      if merged.Ok? {
        assert Keys(values) == [section] + Keys(values[1..]);
        ReservedRejected(Put(data, section, merged.value), values[1..]);
      }
    }
  }

  /** The `env` section of a loaded configuration holds the facts not starting with '_'. */
  lemma LoadedEnv(submodules: seq<string>, files: seq<ParsedFile>, env: Dict<Expression.Scalar>,
                  parse: string -> Option<Expression.Node>)
    requires Loaded(submodules, files, env, parse).Ok?
    ensures Get(Loaded(submodules, files, env, parse).value, EnvSection) == Some(Table(EnvEntries(env).value))
    ensures Get(Loaded(submodules, files, env, parse).value, SubmodulesSection) == Some(Paths(submodules))
  {
    ReservedKept(Initial(submodules, env).value, files, env, parse);
  }

  // ---------------------------------------------------------------------
  // Container and Value

  /** A `Container` (a table, or nothing at all) or a `Value`, as lookups return them. */
  datatype View =
    | Container(path: Option<string>, values: Option<Dict<Tree>>)
    | Value(value: Tree)

  /** `Container(path, values)`: keys normalised, an empty table holding nothing. */
  function MakeContainer(path: Option<string>, values: Dict<Tree>): (r: View)
    ensures r.Container? && r.path == path
    ensures r.values.None? <==> values == []
    ensures r.values.Some? ==> UniqueKeys(r.values.value)
    ensures r.values.Some? ==> forall k, i :: LastWith(values, k, i) ==> Get(r.values.value, k) == Some(values[i].1)
    ensures r.values.Some? ==> forall k :: NoneWith(values, k) ==> Get(r.values.value, k).None?
  {
    NormalizeAll([], values);
    Container(path, if values == [] then None else Some(NormalizeInto([], values)))
  }

  /** The path of the container a lookup of `key` returns. */
  function Extend(path: Option<string>, key: string): string {
    match path
    case None => key
    case Some(p) => p + "." + key
  }

  /** What a container holds under an already normalised key. */
  function Find(c: View, key: string): Option<Tree>
    requires c.Container?
  {
    if c.values.None? then None else Get(c.values.value, key)
  }

  /** `Container.__getattr__` */
  function Lookup(c: View, key: string): (r: View)
    requires c.Container?
    ensures Find(c, Normalize(key)).None? ==> r == Container(Some(Extend(c.path, Normalize(key))), None)
    ensures Find(c, Normalize(key)).Some? && Find(c, Normalize(key)).value.Table? ==>
      r == MakeContainer(Some(Extend(c.path, Normalize(key))), Find(c, Normalize(key)).value.entries)
    ensures Find(c, Normalize(key)).Some? && !Find(c, Normalize(key)).value.Table? ==>
      r == Value(Find(c, Normalize(key)).value)
  {
    var k := Normalize(key);
    match Find(c, k)
    case None => Container(Some(Extend(c.path, k)), None)
    case Some(Table(entries)) => MakeContainer(Some(Extend(c.path, k)), entries)
    case Some(v) => Value(v)
  }

  /** What calling a view returns. */
  datatype Answer = Default(default: string) | Values(values: Option<Dict<Tree>>) | Stored(value: Tree)

  /** `Container.__call__` and `Value.__call__` */
  function Call(v: View, default: Option<string>): Answer {
    match v
    case Container(_, values) => if default.Some? then Default(default.value) else Values(values)
    case Value(x) => Stored(x)
  }

  /** `Container.__contains__` */
  predicate Contains(c: View, key: string)
    requires c.Container?
  {
    c.values.Some? && Normalize(key) in Keys(c.values.value)
  }

  /** `Container.__iter__`: the keys, or nothing. */
  function Iterate(c: View): seq<string>
    requires c.Container?
  {
    if c.values.None? then [] else Keys(c.values.value)
  }

  /** The view `Configuration._data` is. */
  function Root(data: Dict<Tree>): View {
    MakeContainer(None, data)
  }

  /** `Configuration.__getitem__`: the key is normalised before the lookup. */
  function GetItem(data: Dict<Tree>, key: string): View {
    Lookup(Root(data), Normalize(key))
  }

  /** `Configuration.__getattr__` */
  function GetAttr(data: Dict<Tree>, key: string): View {
    Lookup(Root(data), key)
  }

  /** Both ways of looking up a section agree, because normalising is idempotent. */
  lemma GetItemIsGetAttr(data: Dict<Tree>, key: string)
    ensures GetItem(data, key) == GetAttr(data, key)
  {
    NormalizeIdempotent(key);
  }

  /**
   * A missing key never raises: it gives an empty container under the
   * extended path, which contains nothing, iterates as empty and answers a
   * call with the default given.
   */
  lemma MissingKey(c: View, key: string, other: string, default: string)
    requires c.Container? && !Contains(c, key)
    ensures var r := Lookup(c, key);
      r == Container(Some(Extend(c.path, Normalize(key))), None) &&
      !Contains(r, other) && Iterate(r) == [] &&
      Call(r, Some(default)) == Default(default) && Call(r, None) == Values(None)
  {
  }

  /** A stored value that is not a table ignores the default, even when it is `None`. */
  lemma StoredValueIgnoresDefault(c: View, key: string, default: Option<string>)
    requires c.Container? && Contains(c, key) && !Find(c, Normalize(key)).value.Table?
    ensures Call(Lookup(c, key), default) == Stored(Find(c, Normalize(key)).value)
  {
  }

  /** Membership agrees with lookup: a contained key is found. */
  lemma ContainsIffFound(c: View, key: string)
    requires c.Container?
    ensures Contains(c, key) <==> Find(c, Normalize(key)).Some?
  {
  }
}
