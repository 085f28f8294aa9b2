/**
 * `_print`, the word-wrapping printer shared by both user interfaces
 * (`src/nest/ui/__init__.py` and its copy under `twigs/shell_utilities`).
 *
 * The text is split into paragraphs at blank lines and each paragraph into
 * words. The first line printed uses the first indentation and every later
 * line the second; a word that does not fit ends the line, and a word that
 * does not fit on an empty line is cut at the column limit.
 *
 * `fixed` chooses between the code as written and the corrected printer the
 * interfaces use. As written, the cut reserves no column for the space
 * before the word, so the line holding it is one column too long; the rest
 * of the word is never cut again, so it can overflow the next line; after
 * an empty indentation the rest is dropped when another word follows; and a
 * long word that comes after others is not cut at all. The corrected
 * printer reserves the space and keeps cutting whatever does not fit, each
 * piece after the indentation and a space.
 */
module Wrap {
  import opened Text

  /** `w[:n]` */
  function PyPrefix(w: string, n: int): (r: string)
    ensures |r| <= |w| && r == w[..|r|]
    ensures 0 <= n <= |w| ==> |r| == n
  {
    if n >= 0 then (if n <= |w| then w[..n] else w)
    else if |w| + n >= 0 then w[..|w| + n] else []
  }

  /** `w[n:]` */
  function PySuffix(w: string, n: int): (r: string)
    ensures PyPrefix(w, n) + r == w
  {
    var k := |PyPrefix(w, n)|;
    assert w == w[..k] + w[k..];
    w[k..]
  }

  /** The local variables of `_print` between two words. */
  datatype State = State(current: string, words: nat, indent: string, lines: seq<string>)

  /**
   * The corrected cut: `word` goes after `current` and a space, cut into
   * pieces, each on a line of its own after the indentation, while it
   * does not fit.
   */
  function Place(columns: int, indent: string, lines: seq<string>, current: string, word: string): State
    decreases |word|
  {
    var room := columns - |current| - 1;
    if |word| <= room || room < 1 then State(current + " " + word, 1, indent, lines)
    else Place(columns, indent, lines + [current + " " + word[..room]], indent, word[room..])
  }

  /** The body of the loop over the words of a paragraph. */
  function WordStep(columns: int, fixed: bool, second: string, st: State, word: string): State {
    var current := if st.words == 0 then st.indent else st.current;
    var indent := if st.words == 0 then second else st.indent;
    var remaining := columns - |current| - (if st.words > 0 then 1 else 0);
    if |word| < remaining then State(current + " " + word, st.words + 1, indent, st.lines)
    else if fixed then
      if st.words == 0 then Place(columns, indent, st.lines, current, word)
      else Place(columns, indent, st.lines + [current], indent, word)
    else if st.words == 0 then
      var s, rest := PyPrefix(word, remaining), PySuffix(word, remaining);
      var w := if current != "" then 1 else 0;
      State((if w > 0 then indent else "") + rest, w, indent, st.lines + [current + " " + s])
    else State(indent + " " + word, 1, indent, st.lines + [current])
  }

  /** The state after the words `ws` of a paragraph. */
  function AfterWords(columns: int, fixed: bool, second: string, st: State, ws: seq<string>): State
    decreases |ws|
  {
    if ws == [] then st
    else WordStep(columns, fixed, second, AfterWords(columns, fixed, second, st, ws[..|ws| - 1]), ws[|ws| - 1])
  }

  /** One paragraph: the separating line, the words, and what is left over. */
  function BlockStep(columns: int, fixed: bool, second: string, indent: string, lines: seq<string>, block: string, first: bool): State {
    var lines := if first then lines else lines + [indent];
    var st' := AfterWords(columns, fixed, second, State("", 0, indent, lines), Words(block));
    if st'.current != "" then st'.(current := "", lines := st'.lines + [st'.current]) else st'
  }

  /** The state after the paragraphs `blocks`. */
  function AfterBlocks(columns: int, fixed: bool, first: string, second: string, blocks: seq<string>): State
    decreases |blocks|
  {
    if blocks == [] then State("", 0, first, [])
    else
      var st := AfterBlocks(columns, fixed, first, second, blocks[..|blocks| - 1]);
      BlockStep(columns, fixed, second, st.indent, st.lines, blocks[|blocks| - 1], |blocks| == 1)
  }

  /** The lines `_print` prints. */
  function Lines(columns: int, fixed: bool, first: string, second: string, text: string): seq<string> {
    AfterBlocks(columns, fixed, first, second, SplitOn(text, "\n\n")).lines
  }

  /**
   * The loop of `_print` over the words of one paragraph, cutting with the
   * space reserved.
   */
  method WrapWords(columns: int, second: string, indent0: string, lines0: seq<string>, ws: seq<string>)
    returns (current: string, words: nat, indent: string, lines: seq<string>)
    ensures State(current, words, indent, lines) == AfterWords(columns, true, second, State("", 0, indent0, lines0), ws)
  {
    current, words, indent, lines := "", 0, indent0, lines0;
    var j := 0;
    while j < |ws|
      invariant 0 <= j <= |ws|
      invariant State(current, words, indent, lines) == AfterWords(columns, true, second, State("", 0, indent0, lines0), ws[..j])
    {
      AfterWordsStep(columns, second, State("", 0, indent0, lines0), ws, j);
      current, words, indent, lines := WrapWord(columns, second, current, words, indent, lines, ws[j]);
      j := j + 1;
    }
    assert ws[..|ws|] == ws;
  }

  /** The body of the loop over the words: one word placed by the corrected printer. */
  method WrapWord(columns: int, second: string, current0: string, words0: nat, indent0: string, lines0: seq<string>, word: string)
    returns (current: string, words: nat, indent: string, lines: seq<string>)
    ensures State(current, words, indent, lines) == WordStep(columns, true, second, State(current0, words0, indent0, lines0), word)
  {
    current, words, indent, lines := current0, words0, indent0, lines0;
    if words == 0 {
      current := indent;
      indent := second;
    }
    var remaining := columns - |current| - (if words > 0 then 1 else 0);
    if |word| < remaining {
      current := current + " " + word;
      words := words + 1;
    } else {
      if words > 0 {
        lines := lines + [current];
        current := indent;
      }
      current, lines := PlaceWord(columns, indent, lines, current, word);
      words := 1;
    }
  }

  /** The corrected cut, one piece per round. */
  method PlaceWord(columns: int, indent: string, lines0: seq<string>, current0: string, word0: string)
    returns (current: string, lines: seq<string>)
    ensures State(current, 1, indent, lines) == Place(columns, indent, lines0, current0, word0)
  {
    current, lines := current0, lines0;
    var word := word0;
    var room := columns - |current| - 1;
    while |word| > room && room >= 1
      invariant room == columns - |current| - 1
      invariant Place(columns, indent, lines, current, word) == Place(columns, indent, lines0, current0, word0)
      decreases |word|
    {
      lines := lines + [current + " " + word[..room]];
      word := word[room..];
      current := indent;
      room := columns - |current| - 1;
    }
    current := current + " " + word;
  }

  lemma AfterWordsStep(columns: int, second: string, st: State, ws: seq<string>, j: nat)
    requires j < |ws|
    ensures AfterWords(columns, true, second, st, ws[..j + 1]) == WordStep(columns, true, second, AfterWords(columns, true, second, st, ws[..j]), ws[j])
  {
    assert ws[..j + 1][..j] == ws[..j];
  }

  /** One paragraph of `_print`: the separating line, the words, and what is left over. */
  method WrapBlock(columns: int, second: string, indent0: string, lines0: seq<string>, block: string, first: bool)
    returns (indent: string, lines: seq<string>)
    ensures var st := BlockStep(columns, true, second, indent0, lines0, block, first);
      indent == st.indent && lines == st.lines
  {
    lines := lines0;
    if !first {
      lines := lines + [indent0];
    }
    var current, words;
    current, words, indent, lines := WrapWords(columns, second, indent0, lines, Words(block));
    if current != "" {
      lines := lines + [current];
    }
  }

  /** `_print` with the cut reserving the space: the lines, in order. */
  method WrapText(columns: int, first: string, second: string, text: string) returns (lines: seq<string>)
    ensures lines == Lines(columns, true, first, second, text)
  {
    lines := WrapBlocks(columns, first, second, SplitOn(text, "\n\n"));
  }

  /** The loop of `_print` over the paragraphs. */
  method WrapBlocks(columns: int, first: string, second: string, blocks: seq<string>) returns (lines: seq<string>)
    ensures lines == AfterBlocks(columns, true, first, second, blocks).lines
  {
    var indent := first;
    lines := [];
    var i := 0;
    while i < |blocks|
      invariant i <= |blocks| && BlocksDone(columns, first, second, blocks, i, indent, lines)
    {
      indent, lines := WrapNextBlock(columns, first, second, blocks, i, indent, lines);
      i := i + 1;
    }
    assert blocks[..|blocks|] == blocks;
  }

  /** The paragraphs before `i` have left the indentation and the lines the reference fold gives. */
  predicate BlocksDone(columns: int, first: string, second: string, blocks: seq<string>, i: nat, indent: string, lines: seq<string>)
    requires i <= |blocks|
  {
    var st := AfterBlocks(columns, true, first, second, blocks[..i]);
    st.lines == lines && st.indent == indent
  }

  /** One round of the loop over the paragraphs. */
  method WrapNextBlock(columns: int, first: string, second: string, blocks: seq<string>, i: nat, indent0: string, lines0: seq<string>)
    returns (indent: string, lines: seq<string>)
    requires i < |blocks| && BlocksDone(columns, first, second, blocks, i, indent0, lines0)
    ensures BlocksDone(columns, first, second, blocks, i + 1, indent, lines)
  {
    AfterBlocksStep(columns, first, second, blocks, i);
    indent, lines := WrapBlock(columns, second, indent0, lines0, blocks[i], i == 0);
  }

  lemma AfterBlocksStep(columns: int, first: string, second: string, blocks: seq<string>, i: nat)
    requires i < |blocks|
    ensures var st := AfterBlocks(columns, true, first, second, blocks[..i]);
      AfterBlocks(columns, true, first, second, blocks[..i + 1])
        == BlockStep(columns, true, second, st.indent, st.lines, blocks[i], i == 0)
  {
    assert blocks[..i + 1][..i] == blocks[..i];
  }


  // ---------------------------------------------------------------------
  // Width

  predicate WithinColumns(columns: int, lines: seq<string>) {
    forall k :: 0 <= k < |lines| ==> |lines[k]| <= columns
  }

  lemma WithinColumnsAppend(columns: int, lines: seq<string>, line: string)
    requires WithinColumns(columns, lines) && |line| <= columns
    ensures WithinColumns(columns, lines + [line])
  {
  }

  /** What holds between any two steps. */
  predicate Bounded(columns: int, first: string, second: string, st: State) {
    (st.indent == first || st.indent == second) && |st.current| <= columns && WithinColumns(columns, st.lines)
  }

  /**
   * What a word needs for its lines to fit: as written, it must fit after
   * either indentation; the corrected printer only needs room for a space
   * and one character after each indentation.
   */
  predicate StepFits(columns: int, fixed: bool, first: string, second: string, word: string) {
    if fixed then |first| + 2 <= columns && |second| + 2 <= columns
    else |first| + |word| < columns && |second| + |word| < columns
  }

  /** Every word of a paragraph meets `StepFits`. */
  predicate BlockFits(columns: int, fixed: bool, first: string, second: string, block: string) {
    forall w :: w in Words(block) ==> StepFits(columns, fixed, first, second, w)
  }

  /** Every word of the text meets `StepFits`. */
  predicate WordsFit(columns: int, fixed: bool, first: string, second: string, text: string) {
    forall b :: b in SplitOn(text, "\n\n") ==> BlockFits(columns, fixed, first, second, b)
  }

  /** The corrected cut prints only lines within the width, and the line it leaves fits too. */
  lemma {:induction false} PlaceBounded(columns: int, indent: string, lines: seq<string>, current: string, word: string)
    requires WithinColumns(columns, lines) && |current| + 2 <= columns && |indent| + 2 <= columns
    ensures var st := Place(columns, indent, lines, current, word);
      st.indent == indent && |st.current| <= columns && WithinColumns(columns, st.lines)
    decreases |word|
  {
    var room := columns - |current| - 1;
    if |word| > room {
      WithinColumnsAppend(columns, lines, current + " " + word[..room]);
      PlaceBounded(columns, indent, lines + [current + " " + word[..room]], indent, word[room..]);
    }
  }

  lemma WordStepBounded(columns: int, fixed: bool, first: string, second: string, st: State, word: string)
    requires Bounded(columns, first, second, st)
    requires StepFits(columns, fixed, first, second, word)
    ensures Bounded(columns, first, second, WordStep(columns, fixed, second, st, word))
  {
    if fixed {
      var current := if st.words == 0 then st.indent else st.current;
      var indent := if st.words == 0 then second else st.indent;
      if st.words == 0 {
        PlaceBounded(columns, indent, st.lines, current, word);
      } else {
        WithinColumnsAppend(columns, st.lines, current);
        PlaceBounded(columns, indent, st.lines + [current], indent, word);
      }
    }
  }

  lemma {:induction false} AfterWordsBounded(columns: int, fixed: bool, first: string, second: string, st: State, ws: seq<string>)
    requires Bounded(columns, first, second, st)
    requires forall w :: w in ws ==> StepFits(columns, fixed, first, second, w)
    ensures Bounded(columns, first, second, AfterWords(columns, fixed, second, st, ws))
    decreases |ws|
  {
    if ws != [] {
      var init := ws[..|ws| - 1];
      assert forall w :: w in init ==> w in ws;
      AfterWordsBounded(columns, fixed, first, second, st, init);
      WordStepBounded(columns, fixed, first, second, AfterWords(columns, fixed, second, st, init), ws[|ws| - 1]);
    }
  }

  lemma BlockStepBounded(columns: int, fixed: bool, first: string, second: string, st: State, block: string, isFirst: bool)
    requires Bounded(columns, first, second, st) && |first| <= columns && |second| <= columns
    requires BlockFits(columns, fixed, first, second, block)
    ensures Bounded(columns, first, second, BlockStep(columns, fixed, second, st.indent, st.lines, block, isFirst))
  {
    var lines := if isFirst then st.lines else st.lines + [st.indent];
    WithinColumnsAppend(columns, st.lines, st.indent);
    var st' := AfterWords(columns, fixed, second, State("", 0, st.indent, lines), Words(block));
    AfterWordsBounded(columns, fixed, first, second, State("", 0, st.indent, lines), Words(block));
    WithinColumnsAppend(columns, st'.lines, st'.current);
  }

  lemma {:induction false} AfterBlocksBounded(columns: int, fixed: bool, first: string, second: string, blocks: seq<string>)
    requires |first| <= columns && |second| <= columns
    requires forall b :: b in blocks ==> BlockFits(columns, fixed, first, second, b)
    ensures Bounded(columns, first, second, AfterBlocks(columns, fixed, first, second, blocks))
    decreases |blocks|
  {
    if blocks != [] {
      var init := blocks[..|blocks| - 1];
      assert forall b :: b in init ==> b in blocks;
      AfterBlocksBounded(columns, fixed, first, second, init);
      BlockStepBounded(columns, fixed, first, second, AfterBlocks(columns, fixed, first, second, init),
                       blocks[|blocks| - 1], |blocks| == 1);
    }
  }

  /**
   * The promise of `_print`'s documentation, in the form the code keeps
   * it: when every word fits after the indentations, no printed line is
   * longer than `columns`.
   */
  lemma LinesWithinColumns(columns: int, fixed: bool, first: string, second: string, text: string)
    requires |first| <= columns && |second| <= columns
    requires WordsFit(columns, fixed, first, second, text)
    ensures WithinColumns(columns, Lines(columns, fixed, first, second, text))
  {
    AfterBlocksBounded(columns, fixed, first, second, SplitOn(text, "\n\n"));
  }

  /**
   * The corrected printer keeps the promise for every text, however long
   * its words, once each indentation leaves room for a space and a character.
   */
  lemma FixedLinesFit(columns: int, first: string, second: string, text: string)
    requires |first| + 2 <= columns && |second| + 2 <= columns
    ensures WithinColumns(columns, Lines(columns, true, first, second, text))
  {
    forall b | b in SplitOn(text, "\n\n")
      ensures BlockFits(columns, true, first, second, b)
    {
    }
    LinesWithinColumns(columns, true, first, second, text);
  }

  /** A line cut into pieces, read back: the first line after `n0` characters, the others after `n`. */
  function Pieces(ls: seq<string>, n0: nat, n: nat): string
    decreases |ls|
  {
    if ls == [] then []
    else (if n0 <= |ls[0]| then ls[0][n0..] else []) + Pieces(ls[1..], n, n)
  }

  /**
   * The corrected cut loses nothing: the lines it prints and the line it
   * leaves, read back after the indentation and the space, are the word;
   * and the line it leaves holds a word, so the next word is added to it.
   */
  lemma {:induction false} PlaceKeepsWord(columns: int, indent: string, lines: seq<string>, current: string, word: string)
    ensures var st := Place(columns, indent, lines, current, word);
      st.words == 1 && |lines| <= |st.lines| && st.lines[..|lines|] == lines &&
      Pieces(st.lines[|lines|..] + [st.current], |current| + 1, |indent| + 1) == word
    decreases |word|
  {
    var st := Place(columns, indent, lines, current, word);
    var room := columns - |current| - 1;
    if |word| <= room || room < 1 {
      assert st.lines[|lines|..] + [st.current] == [current + " " + word];
      assert (current + " " + word)[|current| + 1..] == word;
      assert [current + " " + word][1..] == [];
    } else {
      var line := current + " " + word[..room];
      var lines' := lines + [line];
      PlaceKeepsWord(columns, indent, lines', indent, word[room..]);
      var tail := st.lines[|lines'|..] + [st.current];
      assert st.lines[|lines|..] + [st.current] == [line] + tail;
      assert ([line] + tail)[1..] == tail;
      assert line[|current| + 1..] == word[..room];
      assert word[..room] + word[room..] == word;
    }
  }

  // ---------------------------------------------------------------------
  // A word longer than the line

  lemma WordsOfWord(w: string)
    requires w != [] && NoSpace(w)
    ensures Words(w) == [w]
    ensures SplitOn(w, "\n\n") == [w]
  {
    assert !IsSpace(w[0]);
    assert LStrip(w) == w;
    WordLengthOfWord(w, []);
    assert w + [] == w;
    assert w[..|w|] == w;
    assert w[|w|..] == [];
    assert Words(w) == [w] + Words([]);
  }

  /** A text of one word is printed as that word alone is placed after the first indentation. */
  lemma OneWord(columns: int, fixed: bool, first: string, second: string, w: string)
    requires w != [] && NoSpace(w)
    ensures var st := WordStep(columns, fixed, second, State("", 0, first, []), w);
      Lines(columns, fixed, first, second, w) == if st.current != "" then st.lines + [st.current] else st.lines
  {
    WordsOfWord(w);
    var st0 := State("", 0, first, []);
    assert [w][..0] == [];
    assert AfterWords(columns, fixed, second, st0, [w][..0]) == st0;
    assert AfterWords(columns, fixed, second, st0, [w]) == WordStep(columns, fixed, second, st0, w);
    var blocks := SplitOn(w, "\n\n");
    assert blocks[..0] == [];
    assert AfterBlocks(columns, fixed, first, second, blocks) == BlockStep(columns, fixed, second, first, [], w, true);
  }

  /**
   * As written, a single word too long for the first line is cut after
   * `columns - |first|` characters and printed after the indentation and a
   * space; the rest follows on one line, after the second indentation when
   * the first is not empty.
   */
  lemma WrittenCut(columns: int, first: string, second: string, w: string)
    requires w != [] && NoSpace(w)
    requires |first| <= columns && |w| >= columns - |first|
    ensures var k := columns - |first|;
      var rest := (if first != "" then second else "") + w[k..];
      Lines(columns, false, first, second, w) == [first + " " + w[..k]] + (if rest != "" then [rest] else [])
  {
    OneWord(columns, false, first, second, w);
    var k := columns - |first|;
    var rest := (if first != "" then second else "") + w[k..];
    assert PyPrefix(w, k) == w[..k] && PySuffix(w, k) == w[k..];
    var st := WordStep(columns, false, second, State("", 0, first, []), w);
    assert st.current == rest && st.lines == [first + " " + w[..k]];
  }

  /** As written, the line holding a cut word is one column too long. */
  lemma CutLineTooLong(columns: int, first: string, second: string, w: string)
    requires w != [] && NoSpace(w)
    requires |first| <= columns && |w| >= columns - |first|
    ensures var lines := Lines(columns, false, first, second, w);
      lines != [] && |lines[0]| == columns + 1
  {
    WrittenCut(columns, first, second, w);
  }

  /**
   * As written, the rest of a cut word is not cut again: a word longer than
   * two lines leaves a second line longer than `columns`.
   */
  lemma RemainderTooLong(columns: int, first: string, second: string, w: string)
    requires w != [] && NoSpace(w) && first != ""
    requires |first| <= columns && |second| <= columns && |w| + |first| + |second| > 2 * columns
    ensures var lines := Lines(columns, false, first, second, w);
      |lines| == 2 && |lines[1]| > columns
  {
    WrittenCut(columns, first, second, w);
  }

  /** The corrected cut prints the first piece after `current` and a space, filling the line. */
  lemma PlaceFirstLine(columns: int, indent: string, current: string, word: string)
    requires 1 <= columns - |current| - 1 < |word|
    ensures var st := Place(columns, indent, [], current, word);
      st.lines != [] && st.lines[0] == current + " " + word[..columns - |current| - 1]
  {
    var room := columns - |current| - 1;
    var line := current + " " + word[..room];
    assert [] + [line] == [line];
    assert Place(columns, indent, [], current, word) == Place(columns, indent, [line], indent, word[room..]);
    PlaceKeepsWord(columns, indent, [line], indent, word[room..]);
    var st := Place(columns, indent, [line], indent, word[room..]);
    assert st.lines[..1] == [line];
  }

  /** A text without a line break is one paragraph. */
  lemma OneBlock(t: string)
    requires forall i :: 0 <= i < |t| ==> t[i] != '\n'
    ensures SplitOn(t, "\n\n") == [t]
  {
    forall j: nat | j + 2 <= |t| ensures !OccursAt(t, "\n\n", j) {
      assert t[j..j + 2][0] == t[j];
    }
  }

  lemma {:induction false} WordLengthOfWord(w: string, rest: string)
    requires NoSpace(w) && (rest == [] || IsSpace(rest[0]))
    ensures WordLength(w + rest) == |w|
    decreases |w|
  {
    if w == [] {
      assert w + rest == rest;
    } else {
      assert (w + rest)[0] == w[0] && (w + rest)[1..] == w[1..] + rest;
      WordLengthOfWord(w[1..], rest);
    }
  }

  /** A word followed by whitespace is the first word of the text. */
  lemma WordsAfterWord(w: string, rest: string)
    requires w != [] && NoSpace(w) && rest != [] && IsSpace(rest[0])
    ensures Words(w + rest) == [w] + Words(rest)
  {
    var t := w + rest;
    assert t[0] == w[0];
    assert LStrip(t) == t;
    WordLengthOfWord(w, rest);
    assert t[..|w|] == w && t[|w|..] == rest;
  }

  lemma WordsOfSpacedWord(w: string)
    requires w != [] && NoSpace(w)
    ensures Words(" " + w) == [w]
  {
    var u := " " + w;
    assert u[1..] == w && !IsSpace(w[0]);
    assert LStrip(u) == w;
    WordLengthOfWord(w, []);
    assert w + [] == w && w[..|w|] == w && w[|w|..] == [];
  }

  /** Two words separated by a space form one paragraph of two words. */
  lemma WordsOfTwo(w1: string, w2: string)
    requires w1 != [] && NoSpace(w1) && w2 != [] && NoSpace(w2)
    ensures Words(w1 + " " + w2) == [w1, w2]
  {
    assert w1 + " " + w2 == w1 + (" " + w2);
    WordsAfterWord(w1, " " + w2);
    WordsOfSpacedWord(w2);
  }

  lemma BlockOfTwo(w1: string, w2: string)
    requires NoSpace(w1) && NoSpace(w2)
    ensures SplitOn(w1 + " " + w2, "\n\n") == [w1 + " " + w2]
  {
    var t := w1 + " " + w2;
    forall i | 0 <= i < |t| ensures t[i] != '\n' {
      if i < |w1| {
        assert t[i] == w1[i];
      } else if i > |w1| {
        assert t[i] == w2[i - |w1| - 1];
      }
    }
    OneBlock(t);
  }

  /** The lines of a text that is a single paragraph. */
  lemma OneParagraph(columns: int, fixed: bool, first: string, second: string, text: string)
    requires SplitOn(text, "\n\n") == [text]
    ensures var st := AfterWords(columns, fixed, second, State("", 0, first, []), Words(text));
      Lines(columns, fixed, first, second, text) == if st.current != "" then st.lines + [st.current] else st.lines
  {
    var blocks := SplitOn(text, "\n\n");
    assert blocks[..0] == [];
    assert AfterBlocks(columns, fixed, first, second, blocks) == BlockStep(columns, fixed, second, first, [], text, true);
  }

  lemma AfterTwoWords(columns: int, fixed: bool, second: string, st: State, a: string, b: string)
    ensures AfterWords(columns, fixed, second, st, [a, b])
      == WordStep(columns, fixed, second, WordStep(columns, fixed, second, st, a), b)
  {
    var ws := [a, b];
    assert ws[..1] == [a] && ws[..1][..0] == [];
    assert AfterWords(columns, fixed, second, st, ws[..1]) == WordStep(columns, fixed, second, st, a);
  }

  /** As written, a first word longer than the line after an empty indentation. */
  lemma WrittenFirstCut(columns: int, second: string, w: string)
    requires 0 <= columns < |w|
    ensures WordStep(columns, false, second, State("", 0, "", []), w) == State(w[columns..], 0, second, [" " + w[..columns]])
  {
    assert PyPrefix(w, columns) == w[..columns] && PySuffix(w, columns) == w[columns..];
    assert "" + " " + w[..columns] == " " + w[..columns];
    assert "" + w[columns..] == w[columns..];
  }

  /** A text of two words is printed as the two words are placed in turn. */
  lemma TwoWords(columns: int, fixed: bool, first: string, second: string, w1: string, w2: string)
    requires w1 != [] && NoSpace(w1) && w2 != [] && NoSpace(w2)
    ensures var st0 := State("", 0, first, []);
      var st := WordStep(columns, fixed, second, WordStep(columns, fixed, second, st0, w1), w2);
      Lines(columns, fixed, first, second, w1 + " " + w2) == if st.current != "" then st.lines + [st.current] else st.lines
  {
    WordsOfTwo(w1, w2);
    BlockOfTwo(w1, w2);
    OneParagraph(columns, fixed, first, second, w1 + " " + w2);
    AfterTwoWords(columns, fixed, second, State("", 0, first, []), w1, w2);
  }

  /** A word that fits starts a paragraph's line after the indentation. */
  lemma FirstWordFits(columns: int, fixed: bool, second: string, current: string, lines: seq<string>, w: string)
    requires |second| + |w| < columns
    ensures WordStep(columns, fixed, second, State(current, 0, second, lines), w) == State(second + " " + w, 1, second, lines)
  {
  }

  /**
   * As written, after an empty first indentation the rest of a cut word is
   * dropped when another word follows: the next word starts the line again
   * from the indentation.
   */
  lemma RemainderLost(columns: int, second: string, w1: string, w2: string)
    requires w1 != [] && NoSpace(w1) && w2 != [] && NoSpace(w2)
    requires 0 <= columns < |w1| && |second| + |w2| < columns
    ensures Lines(columns, false, "", second, w1 + " " + w2) == [" " + w1[..columns], second + " " + w2]
  {
    TwoWords(columns, false, "", second, w1, w2);
    WrittenFirstCut(columns, second, w1);
    var st1 := State(w1[columns..], 0, second, [" " + w1[..columns]]);
    FirstWordFits(columns, false, second, st1.current, st1.lines, w2);
    var st2 := State(second + " " + w2, 1, second, st1.lines);
    assert st2.current != "" && st2.lines + [st2.current] == [" " + w1[..columns], second + " " + w2];
  }

  /** As written, a word that does not fit after others ends the line and starts the next one uncut. */
  lemma WrittenNewLine(columns: int, second: string, current: string, lines: seq<string>, w: string)
    requires |w| >= columns - |current| - 1
    ensures WordStep(columns, false, second, State(current, 1, second, lines), w) == State(second + " " + w, 1, second, lines + [current])
  {
  }

  /**
   * As written, a long word that follows another word is not cut at all:
   * it starts a new line after the second indentation, which is longer
   * than `columns` whenever the word does not fit there.
   */
  lemma LongWordNotCut(columns: int, first: string, second: string, w1: string, w2: string)
    requires w1 != [] && NoSpace(w1) && w2 != [] && NoSpace(w2)
    requires |first| + |w1| < columns && |w2| >= columns - |first| - |w1| - 2
    ensures Lines(columns, false, first, second, w1 + " " + w2) == [first + " " + w1, second + " " + w2]
    ensures |second| + |w2| >= columns ==> |Lines(columns, false, first, second, w1 + " " + w2)[1]| > columns
  {
    TwoWords(columns, false, first, second, w1, w2);
    var st1 := WordStep(columns, false, second, State("", 0, first, []), w1);
    assert st1 == State(first + " " + w1, 1, second, []);
    WrittenNewLine(columns, second, st1.current, [], w2);
    assert [] + [first + " " + w1] == [first + " " + w1];
  }

  /** Reserving the space, the line holding the cut fills the line exactly. */
  lemma CutLineFits(columns: int, first: string, second: string, w: string)
    requires w != [] && NoSpace(w)
    requires |first| + 1 < columns && |w| >= columns - |first|
    ensures var lines := Lines(columns, true, first, second, w);
      lines != [] && lines[0] == first + " " + w[..columns - |first| - 1] && |lines[0]| == columns
  {
    OneWord(columns, true, first, second, w);
    assert WordStep(columns, true, second, State("", 0, first, []), w) == Place(columns, second, [], first, w);
    PlaceFirstLine(columns, second, first, w);
  }
}
