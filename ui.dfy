/**
 * The interactive console of `nest.ui`: the indentation level and the
 * queue of delayed section headers, logging, word-wrapped printing, tree
 * display, questions answered by a unique prefix, and linking and unlinking
 * of a twig's files with the conflict dialogue.
 *
 * The terminal is the list of printed lines, the keyboard a list of replies
 * still to be typed, and the file system the map of `FileSystem`. What
 * `twig.link` and `twig.unlink` do is not shown in the code; they are taken
 * to create and remove the symbolic link.
 */
module Ui {
  import opened Wrappers
  import opened Text
  import opened FileSystem
  import Wrap
  import TreeLayout

  /** An ellipsis to indicate too long lines. */
  const Ellipsis := "…"

  /** One level of indentation. */
  const Indent := "  "

  /** The escape sequence that resets the terminal's colours. */
  const Reset := "\U{1B}[0m"

  /** What can go wrong in a dialogue. */
  datatype UiError =
    | EndOfInput                                  // `input` raised `EOFError`
    | InvalidSource(source: Path, target: Path)   // a dangling link among the twig's files
    | UndefinedName(name: string)                 // Python's `NameError`

  /** `INDENT * n`, which is empty for a level below one. */
  function Pad(level: int): string {
    Repeat(Indent, if level > 0 then level else 0)
  }

  /** `item`: a bullet before the text. */
  function Item(s: string): string {
    "• " + s
  }

  function Bold(s: string): string {
    "\U{1B}[1m" + s + Reset
  }

  function Ignoring(s: string): string {
    "\U{1B}[0;94m" + s + Reset
  }

  function Installing(s: string): string {
    "\U{1B}[0;32m" + s + Reset
  }

  function Removing(s: string): string {
    "\U{1B}[0;31m" + s + Reset
  }

  /** The lines `log` prints for the queued headers, each at its own level. */
  function HeaderLines(hs: seq<(int, string)>): (r: seq<string>)
    ensures |r| == |hs|
    ensures forall k :: 0 <= k < |hs| ==> r[k] == Pad(hs[k].0) + hs[k].1
  {
    if hs == [] then [] else HeaderLines(hs[..|hs| - 1]) + [Pad(hs[|hs| - 1].0) + hs[|hs| - 1].1]
  }

  /** One more queued header adds its line after the others. */
  lemma HeaderLinesAppend(hs: seq<(int, string)>, h: (int, string))
    ensures HeaderLines(hs + [h]) == HeaderLines(hs) + [Pad(h.0) + h.1]
  {
    assert (hs + [h])[..|hs|] == hs;
  }

  // ---------------------------------------------------------------------
  // Section headers

  /**
   * The header `section` shows in `width` columns: a text whose printable
   * `length` (its own length unless given) does not fit is cut to leave room
   * for the ellipsis.
   */
  function SectionHeader(s: string, length: Option<int>, width: int): string {
    var n := length.GetOr(|s|);
    if n >= width then Wrap.PyPrefix(s, -n + width - 1) + Ellipsis + Reset else s
  }

  /**
   * A plain header that does not fit is cut so that, with the ellipsis, it
   * fills the width exactly; one that fits is shown as it is.
   */
  lemma HeaderFitsWidth(s: string, width: int)
    ensures |s| < width ==> SectionHeader(s, None, width) == s
    ensures 0 < width <= |s| ==>
      var h := s[..width - 1] + Ellipsis;
      SectionHeader(s, None, width) == h + Reset && |h| == width
  {
    if 0 < width <= |s| {
      assert |Wrap.PyPrefix(s, -|s| + width - 1)| == width - 1;
    }
  }

  /** How a header is formatted by `'{}{}'.format`: `None` shows as `None`. */
  function Shown(s: Option<string>): string {
    if s.Some? then s.value else "None"
  }

  /**
   * What `section(s, delay)` does on entry as the code is written: the
   * printed lines and the new header queue. A missing text is logged or
   * queued like any other and shows as `None`.
   */
  function WrittenSectionEntry(level: int, headers: seq<(int, string)>, s: Option<string>, delay: bool)
    : (seq<string>, seq<(int, string)>)
  {
    if !delay then (HeaderLines(headers) + [Pad(level) + Shown(s)], [])
    else ([], headers + [(level, Shown(s))])
  }

  /** As written, a section without a text prints a line reading `None`. */
  lemma SectionWithoutTextPrintsNone(level: int, headers: seq<(int, string)>)
    ensures var printed := WrittenSectionEntry(level, headers, None, false).0;
      printed != [] && printed[|printed| - 1] == Pad(level) + "None"
  {
  }

  // ---------------------------------------------------------------------
  // Questions

  function Lowered(args: seq<string>): (r: seq<string>)
    ensures |r| == |args|
    ensures forall k :: 0 <= k < |args| ==> r[k] == Lower(args[k])
  {
    if args == [] then [] else [Lower(args[0])] + Lowered(args[1..])
  }

  /** What `query` appends to the prompt: the options, lower-cased. */
  function Choices(args: seq<string>): string {
    " [" + Join("/", Lowered(args)) + "] "
  }

  /** The indices below `n` of the options that start with `r`, ascending. */
  function Matches(options: seq<string>, r: string, n: nat): (m: seq<nat>)
    requires n <= |options|
    ensures forall i: nat :: i in m <==> (i < n && StartsWith(options[i], r))
    ensures forall a, b :: 0 <= a < b < |m| ==> m[a] < m[b]
  {
    if n == 0 then []
    else
      var pre := Matches(options, r, n - 1);
      var m := pre + (if StartsWith(options[n - 1], r) then [n - 1] else []);
      forall a, b | 0 <= a < b < |m| ensures m[a] < m[b] {
        if b >= |pre| {
          assert pre[a] in pre;
        }
      }
      m
  }

  /** The option a (lower-cased) reply selects, if it selects one. */
  function Answer(options: seq<string>, r: string): Option<nat> {
    var m := Matches(options, r, |options|);
    if r != "" && |m| == 1 then Some(m[0]) else None
  }

  /** A reply selects option `i` iff it is not empty and `i` is the only option it begins. */
  lemma AnswerMeaning(options: seq<string>, r: string, i: nat)
    ensures Answer(options, r) == Some(i) <==>
      r != "" && i < |options| && StartsWith(options[i], r) &&
      forall j :: 0 <= j < |options| && j != i ==> !StartsWith(options[j], r)
  {
    var m := Matches(options, r, |options|);
    if r != "" && i < |options| && StartsWith(options[i], r) &&
       forall j :: 0 <= j < |options| && j != i ==> !StartsWith(options[j], r)
    {
      assert i in m;
      if |m| != 1 {
        assert m[0] in m && m[1] in m && m[0] < m[1];
      }
    }
  }

  /** What a reply that selects nothing makes `query` print: the prompt, and a hint unless the reply is empty. */
  function Attempt(prompt: string, args: seq<string>, reply: string): seq<string> {
    [prompt] + (if Lower(reply) != "" then ["Please select one of " + Join(", ", args)] else [])
  }

  /**
   * What `query` returns on a terminal, given the replies to come: the
   * option of the first reply that selects one, or an error when the input
   * ends first.
   */
  function QueryResult(args: seq<string>, replies: seq<string>): (r: Result<Option<nat>, UiError>)
    ensures r.Ok? ==> r.value.Some? && r.value.value < |args|
  {
    if replies == [] then Err(EndOfInput)
    else
      var a := Pick(args, replies[0]);
      if a.Some? then (AnswerMeaning(Lowered(args), Lower(replies[0]), a.value); Ok(a))
      else QueryResult(args, replies[1..])
  }

  /** The replies left once `query` returns. */
  function QueryRest(args: seq<string>, replies: seq<string>): (r: seq<string>)
    ensures replies != [] ==> |r| < |replies|
  {
    if replies == [] then []
    else if Pick(args, replies[0]).Some? then replies[1..]
    else QueryRest(args, replies[1..])
  }

  /** What `query` prints with the prompt `p`: a prompt per reply read, and the hints. */
  function QueryOut(p: string, args: seq<string>, replies: seq<string>): seq<string> {
    if replies == [] then [p]
    else if Pick(args, replies[0]).Some? then [p]
    else Attempt(p, args, replies[0]) + QueryOut(p, args, replies[1..])
  }

  /** The option a raw reply selects, case being ignored. */
  function Pick(args: seq<string>, reply: string): Option<nat> {
    Answer(Lowered(args), Lower(reply))
  }

  /** Reply `k` is the first that selects an option, and it selects `i`. */
  predicate FirstSelects(args: seq<string>, replies: seq<string>, k: nat, i: nat) {
    k < |replies| && Pick(args, replies[k]) == Some(i) &&
    forall j :: 0 <= j < k ==> Pick(args, replies[j]).None?
  }

  lemma {:induction false} FirstSelectsAnswers(args: seq<string>, replies: seq<string>, k: nat, i: nat)
    requires FirstSelects(args, replies, k, i)
    ensures QueryResult(args, replies) == Ok(Some(i))
    decreases k
  {
    if k > 0 {
      assert Pick(args, replies[0]).None?;
      var rest := replies[1..];
      assert rest[k - 1] == replies[k];
      forall j | 0 <= j < k - 1
        ensures Pick(args, rest[j]).None?
      {
        assert rest[j] == replies[j + 1];
      }
      FirstSelectsAnswers(args, rest, k - 1, i);
    }
  }

  lemma {:induction false} AnswersFirstSelects(args: seq<string>, replies: seq<string>, i: nat) returns (k: nat)
    requires QueryResult(args, replies) == Ok(Some(i))
    ensures FirstSelects(args, replies, k, i)
    decreases |replies|
  {
    assert replies != [];
    var a := Pick(args, replies[0]);
    if a.Some? {
      assert QueryResult(args, replies) == Ok(a);
      k := 0;
    } else {
      var rest := replies[1..];
      assert QueryResult(args, replies) == QueryResult(args, rest);
      var k' := AnswersFirstSelects(args, rest, i);
      k := k' + 1;
      assert replies[k] == rest[k'];
      forall j | 0 < j < k
        ensures Pick(args, replies[j]).None?
      {
        assert replies[j] == rest[j - 1];
      }
    }
  }

  /**
   * `query` answers `i` iff some reply selects option `i` and no reply
   * before it selects anything.
   */
  lemma QueryAnswers(args: seq<string>, replies: seq<string>, i: nat)
    ensures QueryResult(args, replies) == Ok(Some(i)) <==> exists k :: FirstSelects(args, replies, k, i)
  {
    if QueryResult(args, replies) == Ok(Some(i)) {
      var k := AnswersFirstSelects(args, replies, i);
    }
    if exists k :: FirstSelects(args, replies, k, i) {
      var k :| FirstSelects(args, replies, k, i);
      FirstSelectsAnswers(args, replies, k, i);
    }
  }

  /**
   * The prompt of the `n`-th question as the code is written: each round
   * formats the previous round's prompt again.
   */
  function WrittenPrompt(prompt: string, args: seq<string>, n: nat): string {
    if n == 0 then prompt + Choices(args) else WrittenPrompt(prompt, args, n - 1) + Choices(args)
  }

  /** As written, the prompt gains another copy of the options every time the question is repeated. */
  lemma {:induction false} WrittenPromptGrows(prompt: string, args: seq<string>, n: nat)
    ensures WrittenPrompt(prompt, args, n) == prompt + Repeat(Choices(args), n + 1)
    ensures |WrittenPrompt(prompt, args, n)| == |prompt| + (n + 1) * |Choices(args)|
  {
    if n > 0 {
      WrittenPromptGrows(prompt, args, n - 1);
      RepeatAppend(Choices(args), n);
    }
  }

  lemma {:induction false} RepeatAppend(s: string, n: nat)
    ensures Repeat(s, n) + s == Repeat(s, n + 1)
  {
    if n > 0 {
      RepeatAppend(s, n - 1);
    }
  }

  // ---------------------------------------------------------------------
  // Linking

  /** The choices offered when a file is in the way. */
  const LinkChoices := ["yes", "no", "diff"]

  /**
   * How the conflict dialogue ends: overwrite (`true`), keep the file
   * (`false`, also when there is no terminal to ask), or an error; `diff`
   * asks again.
   */
  function ConflictDecision(tty: bool, replies: seq<string>): Result<bool, UiError>
    decreases |replies|
  {
    if !tty then Ok(false)
    else
      var a := QueryResult(LinkChoices, replies);
      if a.Err? then Err(a.error)
      else if a.value == Some(2) then ConflictDecision(tty, QueryRest(LinkChoices, replies))
      else Ok(a.value == Some(0))
  }

  /** What is logged when `diff` is chosen: the diff itself fails, `difflib` never being imported. */
  const DiffFailed := "Failed to read file."

  /** The question asked when the target is in the way, with its options. */
  function OverwritePrompt(target: Path): string {
    AbsoluteString(target) + " already exists. Overwrite? " + Choices(LinkChoices)
  }

  /** The replies left when the conflict dialogue ends. */
  function ConflictRest(tty: bool, replies: seq<string>): seq<string>
    decreases |replies|
  {
    if !tty then replies
    else
      var a := QueryResult(LinkChoices, replies);
      if a.Err? || a.value != Some(2) then QueryRest(LinkChoices, replies)
      else ConflictRest(tty, QueryRest(LinkChoices, replies))
  }

  /**
   * What the conflict dialogue prints: the questions and hints of each
   * round, and after every `diff` the failure logged at indentation `pad`.
   */
  function ConflictOut(tty: bool, p: string, pad: string, replies: seq<string>): seq<string>
    decreases |replies|
  {
    if !tty then []
    else
      var a := QueryResult(LinkChoices, replies);
      QueryOut(p, LinkChoices, replies) +
      (if a.Err? || a.value != Some(2) then []
       else [pad + DiffFailed] + ConflictOut(tty, p, pad, QueryRest(LinkChoices, replies)))
  }

  /** A round of the dialogue on a terminal that ends it: an error, `yes` or `no`. */
  lemma EndRound(p: string, pad: string, replies: seq<string>)
    requires QueryResult(LinkChoices, replies) != Ok(Some(2))
    ensures ConflictOut(true, p, pad, replies) == QueryOut(p, LinkChoices, replies)
    ensures ConflictRest(true, replies) == QueryRest(LinkChoices, replies)
    ensures ConflictDecision(true, replies) ==
      var a := QueryResult(LinkChoices, replies);
      if a.Err? then Err(a.error) else Ok(a.value == Some(0))
  {
  }

  /** A `diff` round: its question and logged failure come before the rest of the dialogue. */
  lemma DiffRound(before: seq<string>, after: seq<string>, p: string, pad: string, replies: seq<string>)
    requires QueryResult(LinkChoices, replies) == Ok(Some(2))
    requires after == (before + QueryOut(p, LinkChoices, replies)) + [pad + DiffFailed]
    ensures after + ConflictOut(true, p, pad, QueryRest(LinkChoices, replies)) == before + ConflictOut(true, p, pad, replies)
    ensures ConflictRest(true, QueryRest(LinkChoices, replies)) == ConflictRest(true, replies)
    ensures ConflictDecision(true, QueryRest(LinkChoices, replies)) == ConflictDecision(true, replies)
  {
    Append4(before, QueryOut(p, LinkChoices, replies), [pad + DiffFailed], ConflictOut(true, p, pad, QueryRest(LinkChoices, replies)));
  }

  /**
   * The error the code as written raises for a dangling file: the name
   * `NestException` is not imported into the module, so evaluating the
   * `raise` fails first.
   */
  function WrittenDanglingError(source: Path, target: Path): UiError {
    UndefinedName("NestException")
  }

  /** As written, a dangling file raises a `NameError`, not the intended exception. */
  lemma DanglingRaisesNameError(source: Path, target: Path)
    ensures WrittenDanglingError(source, target) == UndefinedName("NestException")
    ensures WrittenDanglingError(source, target) != InvalidSource(source, target)
  {
  }

  /** The target needs the dialogue when anything, even a dangling link, is there. */
  predicate Occupied(fs: Fs, p: Path) {
    Exists(fs, p) || IsSymlink(fs, p)
  }

  /** The target already is the right link. */
  predicate InSync(fs: Fs, source: Path, target: Path) {
    Exists(fs, target) && IsSymlink(fs, target) && Readlink(fs, target) == source
  }

  /** The twig's file is a link to nothing. */
  predicate Dangling(fs: Fs, source: Path) {
    !Exists(fs, source) && IsSymlink(fs, source)
  }

  /** Unlinking and then linking the same path is linking it. */
  lemma RelinkIsLink(fs: Fs, source: Path, target: Path)
    ensures LinkTo(Remove(fs, target), source, target) == LinkTo(fs, source, target)
  {
    assert (fs - {target})[target := Symlink(source)] == fs[target := Symlink(source)];
  }

  // ---------------------------------------------------------------------
  // Trees

  /** The lines a row of a tree produces; the root is logged, the rest printed wrapped. */
  function RowLines<T>(columns: int, level: int, r: TreeLayout.Row<T>, show: (nat, T) -> string): seq<string> {
    if r.level == 0 then [Pad(level) + show(0, r.item)]
    else Wrap.Lines(columns, true, Pad(level) + TreeLayout.FirstIndent(r), Pad(level) + TreeLayout.RestIndent(r),
                    show(r.level, r.item))
  }

  function TreeLines<T>(columns: int, level: int, rows: seq<TreeLayout.Row<T>>, show: (nat, T) -> string): seq<string>
    decreases |rows|
  {
    if rows == [] then []
    else RowLines(columns, level, rows[0], show) + TreeLines(columns, level, rows[1..], show)
  }

  /** A row below the root is printed wrapped under its two indentations. */
  lemma RowLinesNode<T>(columns: int, level: int, r: TreeLayout.Row<T>, show: (nat, T) -> string)
    requires r.level > 0
    ensures RowLines(columns, level, r, show)
      == Wrap.Lines(columns, true, Pad(level) + TreeLayout.FirstIndent(r), Pad(level) + TreeLayout.RestIndent(r), show(r.level, r.item))
  {
  }

  /** The root row of a layout, alone at level 0, is followed by deeper rows only. */
  lemma LayoutRows<T>(root: TreeLayout.Node<T>)
    ensures var rows := TreeLayout.Layout(root);
      rows != [] && rows[0].level == 0 && forall k :: 0 <= k < |rows[1..]| ==> rows[1..][k].level > 0
  {
    TreeLayout.LayoutShape(root);
    var rows := TreeLayout.Layout(root);
    forall k | 0 <= k < |rows[1..]|
      ensures rows[1..][k].level > 0
    {
      assert rows[1..][k] == rows[k + 1];
    }
  }

  /** The root row is logged as it is. */
  lemma TreeLinesRoot<T>(columns: int, level: int, rows: seq<TreeLayout.Row<T>>, show: (nat, T) -> string)
    requires rows != [] && rows[0].level == 0
    ensures TreeLines(columns, level, rows, show) == [Pad(level) + show(0, rows[0].item)] + TreeLines(columns, level, rows[1..], show)
  {
  }

  lemma TreeLinesStep<T>(columns: int, level: int, rows: seq<TreeLayout.Row<T>>, show: (nat, T) -> string, k: nat)
    requires k < |rows|
    ensures TreeLines(columns, level, rows[k..], show)
      == RowLines(columns, level, rows[k], show) + TreeLines(columns, level, rows[k + 1..], show)
  {
    assert rows[k..][1..] == rows[k + 1..];
  }

  // ---------------------------------------------------------------------

  class Console {
    /** The terminal width. */
    const columns: int
    /** Whether standard input is a terminal. */
    const tty: bool
    /** `__INDENT` */
    var level: int
    /** `__HEADERS`: delayed headers with the level they were opened at. */
    var headers: seq<(int, string)>
    /** Every line printed so far. */
    var out: seq<string>
    /** The replies still to be typed. */
    var input: seq<string>
    var fs: Fs

    constructor (columns: int, tty: bool, input: seq<string>, fs: Fs)
      ensures this.columns == columns && this.tty == tty && this.input == input && this.fs == fs
      ensures level == 0 && headers == [] && out == []
    {
      this.columns := columns;
      this.tty := tty;
      this.input := input;
      this.fs := fs;
      level := 0;
      headers := [];
      out := [];
    }

    /** `log`: the queued headers at their levels, then the line at the current one. */
    method Log(s: string)
      modifies this
      ensures out == old(out) + HeaderLines(old(headers)) + [Pad(level) + s]
      ensures headers == []
      ensures level == old(level) && input == old(input) && fs == old(fs)
    {
      var k := 0;
      while k < |headers|
        invariant 0 <= k <= |headers|
        invariant out == old(out) + HeaderLines(headers[..k])
        invariant headers == old(headers) && level == old(level) && input == old(input) && fs == old(fs)
      {
        assert headers[..k + 1][..k] == headers[..k];
        out := out + [Pad(headers[k].0) + headers[k].1];
        k := k + 1;
      }
      assert headers[..|headers|] == headers;
      headers := [];
      out := out + [Pad(level) + s];
    }

    /** `_print`: the text wrapped, both indentations after the current level's. */
    method Print(first: string, rest: string, text: string)
      modifies this
      ensures out == old(out) + Wrap.Lines(columns, true, Pad(level) + first, Pad(level) + rest, text)
      ensures level == old(level) && headers == old(headers) && input == old(input) && fs == old(fs)
    {
      var lines := Wrap.WrapText(columns, Pad(level) + first, Pad(level) + rest, text);
      out := out + lines;
    }

    /** The built-in `print(s)`: straight to the terminal, past the header queue and the indentation. */
    method Echo(s: string)
      modifies this
      ensures out == old(out) + [s]
      ensures level == old(level) && headers == old(headers) && input == old(input) && fs == old(fs)
    {
      out := out + [s];
    }

    /** Entering `indent()`. */
    method BeginIndent()
      modifies this
      ensures level == old(level) + 1
      ensures headers == old(headers) && out == old(out) && input == old(input) && fs == old(fs)
    {
      level := level + 1;
    }

    /** Leaving `indent()`. */
    method EndIndent()
      modifies this
      ensures level == old(level) - 1
      ensures headers == old(headers) && out == old(out) && input == old(input) && fs == old(fs)
    {
      level := level - 1;
    }

    /**
     * Entering `section(s, delay, length)`: the header is logged now or
     * queued, and the level goes up. Without a text nothing is shown; the
     * result is what leaving needs to know about the queue.
     */
    method BeginSection(s: Option<string>, delay: bool, length: Option<int>) returns (mark: Option<nat>)
      modifies this
      ensures level == old(level) + 1 && input == old(input) && fs == old(fs)
      ensures s.None? ==> out == old(out) && headers == old(headers) && mark.None?
      ensures s.Some? && !delay ==>
        out == old(out) + HeaderLines(old(headers))
                        + [Pad(old(level)) + SectionHeader(s.value, length, columns - |Indent| * old(level))] &&
        headers == [] && mark.None?
      ensures s.Some? && delay ==>
        out == old(out) &&
        headers == old(headers) + [(old(level), SectionHeader(s.value, length, columns - |Indent| * old(level)))] &&
        mark == Some(|headers|)
    {
      mark := None;
      if s.Some? {
        var header := SectionHeader(s.value, length, columns - |Indent| * level);
        if !delay {
          Log(header);
        } else {
          headers := headers + [(level, header)];
          mark := Some(|headers|);
        }
      }
      BeginIndent();
    }

    /**
     * Leaving a section: the level goes back down, and a delayed header
     * that nothing logged is taken off the queue.
     */
    method EndSection(mark: Option<nat>)
      modifies this
      ensures level == old(level) - 1 && out == old(out) && input == old(input) && fs == old(fs)
      ensures headers == if mark.Some? && mark.value == |old(headers)| && mark.value > 0
                         then old(headers)[..mark.value - 1] else old(headers)
    {
      EndIndent();
      if mark.Some? && mark.value == |headers| && mark.value > 0 {
        headers := headers[..|headers| - 1];
      }
    }

    /** `with section(s, delay=True): pass`: a delayed header nobody logs under is never shown. */
    method UnusedDelayedSection(s: string, length: Option<int>)
      modifies this
      ensures out == old(out) && headers == old(headers) && level == old(level)
    {
      var mark := BeginSection(Some(s), true, length);
      EndSection(mark);
      assert old(headers) + [(old(level), SectionHeader(s, length, columns - |Indent| * old(level)))]
        == headers + [(old(level), SectionHeader(s, length, columns - |Indent| * old(level)))];
    }

    /** `with section(s, delay=True): log(t)`: the header comes out just before the line. */
    method LoggedDelayedSection(s: string, length: Option<int>, t: string)
      modifies this
      ensures out == old(out) + HeaderLines(old(headers))
                              + [Pad(old(level)) + SectionHeader(s, length, columns - |Indent| * old(level)),
                                 Pad(old(level) + 1) + t]
      ensures headers == [] && level == old(level)
    {
      var mark := BeginSection(Some(s), true, length);
      Log(t);
      EndSection(mark);
      var hs := old(headers) + [(old(level), SectionHeader(s, length, columns - |Indent| * old(level)))];
      assert HeaderLines(hs) == HeaderLines(old(headers)) + [Pad(old(level)) + SectionHeader(s, length, columns - |Indent| * old(level))];
    }

    /**
     * `query(prompt, *args)`: `None` without a terminal; otherwise the
     * question is repeated with the same prompt until a reply selects an
     * option, and an exhausted input is an error.
     */
    method Query(prompt: string, args: seq<string>) returns (r: Result<Option<nat>, UiError>)
      modifies this
      ensures level == old(level) && headers == old(headers) && fs == old(fs)
      ensures !tty ==> r == Ok(None) && out == old(out) && input == old(input)
      ensures tty ==>
        r == QueryResult(args, old(input)) && input == QueryRest(args, old(input)) &&
        out == old(out) + QueryOut(prompt + Choices(args), args, old(input))
    {
      var p := prompt + Choices(args);
      if !tty {
        return Ok(None);
      }
      while true
        invariant QueryResult(args, input) == QueryResult(args, old(input))
        invariant QueryRest(args, input) == QueryRest(args, old(input))
        invariant out + QueryOut(p, args, input) == old(out) + QueryOut(p, args, old(input))
        invariant level == old(level) && headers == old(headers) && fs == old(fs)
        decreases |input|
      {
        ghost var before := input;
        var eof, a := Ask(p, args);
        if eof {
          return Err(EndOfInput);
        }
        if a.Some? {
          return Ok(a);
        }
        assert before[1..] == input;
      }
    }

    /** One round of `query`: the prompt, a reply read, and a hint when it selects nothing. */
    method Ask(p: string, args: seq<string>) returns (eof: bool, a: Option<nat>)
      modifies this
      ensures level == old(level) && headers == old(headers) && fs == old(fs)
      ensures old(input) == [] ==> eof && input == [] && out == old(out) + [p]
      ensures old(input) != [] ==>
        !eof && input == old(input)[1..] && a == Answer(Lowered(args), Lower(old(input)[0])) &&
        out == old(out) + (if a.Some? then [p] else Attempt(p, args, old(input)[0]))
    {
      out := out + [p];
      if input == [] {
        return true, None;
      }
      var reply := Lower(input[0]);
      input := input[1..];
      a := Answer(Lowered(args), reply);
      if a.None? && reply != "" {
        out := out + ["Please select one of " + Join(", ", args)];
      }
      eof := false;
    }

    /**
     * `link(twig, source, target, rel)`: nothing when the target already
     * links to the file; an error for a dangling file; otherwise a free
     * target is linked, and an occupied one only when the user says yes.
     * Unless the target already links to the file, the file is logged
     * first; the dialogue then consumes replies and prints its rounds.
     */
    method Link(source: Path, target: Path, rel: Path) returns (r: Result<(), UiError>)
      modifies this
      ensures level == old(level)
      ensures InSync(old(fs), source + rel, target + rel) ==>
        r.Ok? && fs == old(fs) && out == old(out) && input == old(input) && headers == old(headers)
      ensures !InSync(old(fs), source + rel, target + rel) && Dangling(old(fs), source + rel) ==>
        r == Err(InvalidSource(source + rel, Readlink(old(fs), source + rel))) && fs == old(fs)
      ensures (!InSync(old(fs), source + rel, target + rel) && !Dangling(old(fs), source + rel) &&
               !Occupied(old(fs), target + rel)) ==>
        r.Ok? && fs == LinkTo(old(fs), source + rel, target + rel)
      ensures (!InSync(old(fs), source + rel, target + rel) && !Dangling(old(fs), source + rel) &&
               Occupied(old(fs), target + rel)) ==>
        var d := ConflictDecision(tty, old(input));
        (d == Ok(true) ==> r.Ok? && fs == LinkTo(old(fs), source + rel, target + rel)) &&
        (d == Ok(false) ==> r.Ok? && fs == old(fs)) &&
        (d.Err? ==> r == Err(d.error) && fs == old(fs))
      ensures !InSync(old(fs), source + rel, target + rel) ==>
        var logged := old(out) + HeaderLines(old(headers)) + [Pad(level) + Item(Installing(RelativeString(rel)))];
        headers == [] &&
        (Dangling(old(fs), source + rel) || !Occupied(old(fs), target + rel) ==> out == logged && input == old(input)) &&
        (!Dangling(old(fs), source + rel) && Occupied(old(fs), target + rel) ==>
          out == logged + ConflictOut(tty, OverwritePrompt(target + rel), Pad(level), old(input)) &&
          input == ConflictRest(tty, old(input)))
    {
      var src := source + rel;
      var tgt := target + rel;
      if InSync(fs, src, tgt) {
        return Ok(());
      }
      Log(Item(Installing(RelativeString(rel))));
      if Dangling(fs, src) {
        return Err(InvalidSource(src, Readlink(fs, src)));
      }
      if Occupied(fs, tgt) {
        var d := Overwrite(tgt);
        if d.Err? {
          return Err(d.error);
        }
        if !d.value {
          return Ok(());
        }
        RelinkIsLink(fs, src, tgt);
        fs := Remove(fs, tgt);
      }
      fs := LinkTo(fs, src, tgt);
      r := Ok(());
    }

    /**
     * The loop of `link` over a target in the way: `yes` overwrites, `no`
     * (or no terminal) keeps the target, and `diff` logs its failure and
     * asks again.
     */
    method Overwrite(tgt: Path) returns (r: Result<bool, UiError>)
      requires headers == []
      modifies this
      ensures r == ConflictDecision(tty, old(input))
      ensures out == old(out) + ConflictOut(tty, OverwritePrompt(tgt), Pad(level), old(input))
      ensures input == ConflictRest(tty, old(input))
      ensures level == old(level) && headers == [] && fs == old(fs)
    {
      ghost var p, pad := OverwritePrompt(tgt), Pad(level);
      ghost var out0, input0 := out, input;
      while true
        invariant level == old(level) && headers == [] && fs == old(fs)
        invariant ConflictDecision(tty, input) == ConflictDecision(tty, input0)
        invariant ConflictRest(tty, input) == ConflictRest(tty, input0)
        invariant out + ConflictOut(tty, p, pad, input) == out0 + ConflictOut(tty, p, pad, input0)
        decreases |input|
      {
        ghost var before, printed := input, out;
        var done;
        done, r := OverwriteRound(tgt);
        if done {
          return;
        }
      }
    }

    /** One question of the dialogue: `done` once an answer ends it, and otherwise `diff` was chosen. */
    method OverwriteRound(tgt: Path) returns (done: bool, r: Result<bool, UiError>)
      requires headers == []
      modifies this
      ensures level == old(level) && headers == [] && fs == old(fs)
      ensures done ==>
        r == ConflictDecision(tty, old(input)) && input == ConflictRest(tty, old(input)) &&
        out == old(out) + ConflictOut(tty, OverwritePrompt(tgt), Pad(level), old(input))
      ensures !done ==>
        |input| < |old(input)| &&
        ConflictDecision(tty, input) == ConflictDecision(tty, old(input)) &&
        ConflictRest(tty, input) == ConflictRest(tty, old(input)) &&
        out + ConflictOut(tty, OverwritePrompt(tgt), Pad(level), input) ==
          old(out) + ConflictOut(tty, OverwritePrompt(tgt), Pad(level), old(input))
    {
      var q := Query(AbsoluteString(tgt) + " already exists. Overwrite? ", LinkChoices);
      if !tty {
        return true, Ok(false);
      }
      ghost var p, pad := OverwritePrompt(tgt), Pad(level);
      if q.Err? || q.value.value != 2 {
        EndRound(p, pad, old(input));
        return true, if q.Err? then Err(q.error) else Ok(q.value.value == 0);
      }
      Log(DiffFailed);
      assert HeaderLines([]) == [];
      DiffRound(old(out), out, p, pad, old(input));
      done, r := false, Ok(false);
    }

    /**
     * `unlink(twig, source, target, rel)`: only a link to the twig's own
     * file is removed, and the removal is logged.
     */
    method Unlink(source: Path, target: Path, rel: Path, userSource: Path)
      modifies this
      ensures level == old(level) && input == old(input)
      ensures var tgt := target + rel;
        if IsSymlink(old(fs), tgt) && Readlink(old(fs), tgt) == source + rel then
          fs == Remove(old(fs), tgt) &&
          out == old(out) + HeaderLines(old(headers))
                          + [Pad(level) + Item(Removing(if Below(tgt, userSource) then RelativeString(rel) else AbsoluteString(tgt)))]
        else
          fs == old(fs) && out == old(out) && headers == old(headers)
    {
      var tgt := target + rel;
      if IsSymlink(fs, tgt) && Readlink(fs, tgt) == source + rel {
        Log(Item(Removing(if Below(tgt, userSource) then RelativeString(rel) else AbsoluteString(tgt))));
        fs := Remove(fs, tgt);
      }
    }

    /** `tree(root, leaves, string)`: the root logged, every other node printed wrapped under its connector. */
    method Tree<T>(root: TreeLayout.Node<T>, show: (nat, T) -> string)
      modifies this
      ensures out == old(out) + HeaderLines(old(headers)) + TreeLines(columns, level, TreeLayout.Layout(root), show)
      ensures headers == [] && level == old(level) && input == old(input) && fs == old(fs)
    {
      var rows := TreeLayout.Layout(root);
      LayoutRows(root);
      TreeLinesRoot(columns, level, rows, show);
      Log(show(0, rows[0].item));
      ShowRows(rows[1..], show);
      AppendAssoc(old(out) + HeaderLines(old(headers)), [Pad(level) + show(0, rows[0].item)], TreeLines(columns, level, rows[1..], show));
    }

    /** The rows below the root, each printed wrapped. */
    method ShowRows<T>(rows: seq<TreeLayout.Row<T>>, show: (nat, T) -> string)
      requires forall k :: 0 <= k < |rows| ==> rows[k].level > 0
      modifies this
      ensures out == old(out) + TreeLines(columns, level, rows, show)
      ensures headers == old(headers) && level == old(level) && input == old(input) && fs == old(fs)
    {
      ghost var total := out + TreeLines(columns, level, rows, show);
      var k := 0;
      while k < |rows|
        invariant 0 <= k <= |rows|
        invariant out + TreeLines(columns, level, rows[k..], show) == total
        invariant headers == old(headers) && level == old(level) && input == old(input) && fs == old(fs)
      {
        ShowRowAt(rows, show, k, total);
        k := k + 1;
      }
      assert rows[k..] == [];
    }

    /** One round of the loop over the rows below the root: the row at `k` printed. */
    method ShowRowAt<T>(rows: seq<TreeLayout.Row<T>>, show: (nat, T) -> string, k: nat, ghost total: seq<string>)
      requires k < |rows| && rows[k].level > 0
      requires out + TreeLines(columns, level, rows[k..], show) == total
      modifies this
      ensures out + TreeLines(columns, level, rows[k + 1..], show) == total
      ensures headers == old(headers) && level == old(level) && input == old(input) && fs == old(fs)
    {
      TreeLinesStep(columns, level, rows, show, k);
      ghost var before := out;
      ShowNode(rows[k], show);
      AppendAssoc(before, RowLines(columns, level, rows[k], show), TreeLines(columns, level, rows[k + 1..], show));
    }

    /** A node below the root: its text printed under the node's indentations. */
    method ShowNode<T>(row: TreeLayout.Row<T>, show: (nat, T) -> string)
      requires row.level > 0
      modifies this
      ensures out == old(out) + RowLines(columns, level, row, show)
      ensures headers == old(headers) && level == old(level) && input == old(input) && fs == old(fs)
    {
      RowLinesNode(columns, level, row, show);
      Print(TreeLayout.FirstIndent(row), TreeLayout.RestIndent(row), show(row.level, row.item));
    }
  }
}
