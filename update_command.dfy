/**
 * The command `update` of `nest.__main__`: every enabled twig lists its
 * updates under a delayed section of its own; with `apply`, every twig that
 * listed something is updated, and the listed updates make up the commit
 * message.
 */
module UpdateCommand {
  import opened Wrappers
  import opened Text
  import Ui
  import Twigs
  import Order

  type Twig = Twigs.Twig

  /** A twig's name with the updates it listed: one entry of `updates_for_twigs`. */
  type Entry = (string, seq<string>)

  const ListingTitle := "Updates for twigs"
  const ApplyingTitle := "Updating twigs"
  const Subject := "Update twigs"

  /** The bullet of the commit message: the UTF-8 bytes of `•` read back as three Latin-1/CP1252 characters. */
  const Bullet := " \U{E2}\U{20AC}\U{A2} "

  // ---------------------------------------------------------------------
  // What is shown

  /** The header of a twig's section: its name in bold, a dash, its description. */
  function TwigHeader(t: Twig): string {
    Ui.Bold(t.name) + " - " + t.description
  }

  /** The header of the section in which a twig is updated. */
  function ApplyingHeader(t: Twig): string {
    Ui.Item("Updating " + Ui.Bold(t.name) + "...")
  }

  /** The line a section header without a given length shows at `level`. */
  function HeaderLine(columns: int, level: int, s: string): string {
    Ui.Pad(level) + Ui.SectionHeader(s, None, columns - |Ui.Indent| * level)
  }

  /** Each update as an item at `level`. */
  function ItemLines(level: int, updates: seq<string>): (r: seq<string>)
    decreases |updates|
  {
    if updates == [] then []
    else ItemLines(level, updates[..|updates| - 1]) + [Ui.Pad(level) + Ui.Item(updates[|updates| - 1])]
  }

  /** What a twig's section shows while listing: its header, then its updates one level deeper. */
  function Block(columns: int, level: int, t: Twig, updates: seq<string>): seq<string> {
    [HeaderLine(columns, level, TwigHeader(t))] + ItemLines(level + 1, updates)
  }

  /** What a twig's section shows while updating: its header, then the instructions if there are any. */
  function ApplyBlock(columns: int, level: int, t: Twig, instructions: Option<string>): seq<string> {
    [HeaderLine(columns, level, ApplyingHeader(t))]
      + (if instructions.Some? then [Ui.Pad(level + 1) + instructions.value] else [])
  }

  // ---------------------------------------------------------------------
  // The twigs taken in registration order

  /** `twig.updates`: what the lister chain of the twig at `i` returns. */
  function Updates(twigs: seq<Twig>, lists: Twigs.StageId -> seq<string>, i: nat): seq<string>
    requires i < |twigs|
  {
    Twigs.ListUpdates(twigs[i].listers, lists)
  }

  /** The twig at `i` is enabled and has updates: it gets an entry, and it is updated when applying. */
  predicate Listed(twigs: seq<Twig>, enabled: seq<bool>, lists: Twigs.StageId -> seq<string>, i: nat)
    requires i < |twigs| == |enabled|
  {
    enabled[i] && Updates(twigs, lists, i) != []
  }

  /** `updates_for_twigs` after the first `n` twigs, as entries in registration order. */
  function Entries(twigs: seq<Twig>, enabled: seq<bool>, lists: Twigs.StageId -> seq<string>, n: nat): seq<Entry>
    requires n <= |twigs| == |enabled|
  {
    if n == 0 then [] else
    var before := Entries(twigs, enabled, lists, n - 1);
    before + (if Listed(twigs, enabled, lists, n - 1) then [(twigs[n - 1].name, Updates(twigs, lists, n - 1))] else [])
  }

  /** The blocks the first `n` twigs show while listing. */
  function ListingLines(columns: int, level: int, twigs: seq<Twig>, enabled: seq<bool>, lists: Twigs.StageId -> seq<string>, n: nat): seq<string>
    requires n <= |twigs| == |enabled|
  {
    if n == 0 then [] else
    var before := ListingLines(columns, level, twigs, enabled, lists, n - 1);
    before + (if Listed(twigs, enabled, lists, n - 1) then Block(columns, level, twigs[n - 1], Updates(twigs, lists, n - 1)) else [])
  }

  /** The callbacks the listing runs: the lister chain of every enabled twig. */
  function ListingCalls(twigs: seq<Twig>, enabled: seq<bool>, n: nat): seq<Twigs.Event>
    requires n <= |twigs| == |enabled|
  {
    if n == 0 then [] else
    var before := ListingCalls(twigs, enabled, n - 1);
    before + (if enabled[n - 1] then Twigs.Calls(twigs[n - 1].name, twigs[n - 1].listers) else [])
  }

  /** The blocks the first `n` twigs show while updating. */
  function ApplyLines(columns: int, level: int, twigs: seq<Twig>, enabled: seq<bool>, lists: Twigs.StageId -> seq<string>,
                      applied: Twigs.StageId -> Option<string>, n: nat): seq<string>
    requires n <= |twigs| == |enabled|
  {
    if n == 0 then [] else
    var before := ApplyLines(columns, level, twigs, enabled, lists, applied, n - 1);
    var t := twigs[n - 1];
    before + (if Listed(twigs, enabled, lists, n - 1) then ApplyBlock(columns, level, t, Twigs.ApplyUpdates(t.appliers, applied)) else [])
  }

  /**
   * The callbacks updating runs: the lister chain of every enabled twig
   * once more, and the applier chain of those that have updates.
   */
  function ApplyCalls(twigs: seq<Twig>, enabled: seq<bool>, lists: Twigs.StageId -> seq<string>, n: nat): seq<Twigs.Event>
    requires n <= |twigs| == |enabled|
  {
    if n == 0 then [] else
    var before := ApplyCalls(twigs, enabled, lists, n - 1);
    var t := twigs[n - 1];
    var applying := if Updates(twigs, lists, n - 1) != [] then Twigs.Calls(t.name, t.appliers) else [];
    before + (if enabled[n - 1] then Twigs.Calls(t.name, t.listers) + applying else [])
  }

  /** The entries are exactly the enabled twigs that have updates, each with those updates. */
  lemma {:induction false} EntriesMeaning(twigs: seq<Twig>, enabled: seq<bool>, lists: Twigs.StageId -> seq<string>, n: nat, e: Entry)
    requires n <= |twigs| == |enabled|
    ensures e in Entries(twigs, enabled, lists, n) <==>
      exists i :: 0 <= i < n && Listed(twigs, enabled, lists, i) && e == (twigs[i].name, Updates(twigs, lists, i))
  {
    if n > 0 {
      EntriesMeaning(twigs, enabled, lists, n - 1, e);
      if Listed(twigs, enabled, lists, n - 1) && e == (twigs[n - 1].name, Updates(twigs, lists, n - 1)) {
        assert e in Entries(twigs, enabled, lists, n);
      }
    }
  }

  /** Nothing is listed exactly when listing shows no block. */
  lemma {:induction false} NothingListed(columns: int, level: int, twigs: seq<Twig>, enabled: seq<bool>,
                                         lists: Twigs.StageId -> seq<string>, n: nat)
    requires n <= |twigs| == |enabled|
    ensures Entries(twigs, enabled, lists, n) == [] <==> ListingLines(columns, level, twigs, enabled, lists, n) == []
  {
    if n > 0 {
      NothingListed(columns, level, twigs, enabled, lists, n - 1);
      var listed := Listed(twigs, enabled, lists, n - 1);
      var entry: seq<Entry> := if listed then [(twigs[n - 1].name, Updates(twigs, lists, n - 1))] else [];
      var block := Block(columns, level, twigs[n - 1], Updates(twigs, lists, n - 1));
      assert |block| > 0;
      var shown := if listed then block else [];
      assert Entries(twigs, enabled, lists, n) == Entries(twigs, enabled, lists, n - 1) + entry;
      assert ListingLines(columns, level, twigs, enabled, lists, n) == ListingLines(columns, level, twigs, enabled, lists, n - 1) + shown;
      BothEmpty(Entries(twigs, enabled, lists, n - 1), ListingLines(columns, level, twigs, enabled, lists, n - 1), entry, shown);
    }
  }

  /** Nothing is listed exactly when updating shows no block. */
  lemma {:induction false} NothingApplied(columns: int, level: int, twigs: seq<Twig>, enabled: seq<bool>,
                                          lists: Twigs.StageId -> seq<string>, applied: Twigs.StageId -> Option<string>, n: nat)
    requires n <= |twigs| == |enabled|
    ensures Entries(twigs, enabled, lists, n) == [] <==> ApplyLines(columns, level, twigs, enabled, lists, applied, n) == []
  {
    if n > 0 {
      NothingApplied(columns, level, twigs, enabled, lists, applied, n - 1);
      var listed := Listed(twigs, enabled, lists, n - 1);
      var entry: seq<Entry> := if listed then [(twigs[n - 1].name, Updates(twigs, lists, n - 1))] else [];
      var block := ApplyBlock(columns, level, twigs[n - 1], Twigs.ApplyUpdates(twigs[n - 1].appliers, applied));
      assert |block| > 0;
      var shown := if listed then block else [];
      assert Entries(twigs, enabled, lists, n) == Entries(twigs, enabled, lists, n - 1) + entry;
      assert ApplyLines(columns, level, twigs, enabled, lists, applied, n) == ApplyLines(columns, level, twigs, enabled, lists, applied, n - 1) + shown;
      BothEmpty(Entries(twigs, enabled, lists, n - 1), ApplyLines(columns, level, twigs, enabled, lists, applied, n - 1), entry, shown);
    }
  }

  /** Appending keeps two sequences empty together. */
  lemma BothEmpty<A, B>(a: seq<A>, b: seq<B>, a': seq<A>, b': seq<B>)
    requires a == [] <==> b == []
    requires a' == [] <==> b' == []
    ensures a + a' == [] <==> b + b' == []
  {
    assert |a + a'| == |a| + |a'| && |b + b'| == |b| + |b'|;
  }

  /** Registered names are unique, so is the name of every entry. */
  lemma EntryNamesUnique(twigs: seq<Twig>, enabled: seq<bool>, lists: Twigs.StageId -> seq<string>)
    requires |twigs| == |enabled| && Twigs.UniqueNames(twigs)
    ensures forall x, y :: x in Entries(twigs, enabled, lists, |twigs|) && y in Entries(twigs, enabled, lists, |twigs|) && x.0 == y.0 ==> x == y
  {
    forall x, y | x in Entries(twigs, enabled, lists, |twigs|) && y in Entries(twigs, enabled, lists, |twigs|) && x.0 == y.0
      ensures x == y
    {
      EntriesMeaning(twigs, enabled, lists, |twigs|, x);
      EntriesMeaning(twigs, enabled, lists, |twigs|, y);
      var i :| 0 <= i < |twigs| && Listed(twigs, enabled, lists, i) && x == (twigs[i].name, Updates(twigs, lists, i));
      var j :| 0 <= j < |twigs| && Listed(twigs, enabled, lists, j) && y == (twigs[j].name, Updates(twigs, lists, j));
      assert twigs[i].name == twigs[j].name;
    }
  }

  // ---------------------------------------------------------------------
  // The commit message

  function EntryKey(e: Entry): seq<string> {
    [e.0]
  }

  function BulletLines(updates: seq<string>): seq<string>
    decreases |updates|
  {
    if updates == [] then [] else [Bullet + updates[0]] + BulletLines(updates[1..])
  }

  function Paragraphs(entries: seq<Entry>): seq<string>
    decreases |entries|
  {
    if entries == [] then []
    else [entries[0].0 + "\n" + Join("\n", BulletLines(entries[0].1))] + Paragraphs(entries[1..])
  }

  /** The message of the commit: a subject line, then a paragraph per twig, the twigs sorted by name. */
  function CommitMessage(entries: seq<Entry>): string {
    Subject + "\n\n" + Join("\n\n", Paragraphs(Order.Sort(entries, EntryKey)))
  }

  /**
   * The twigs' listers run in parallel and the entries arrive in any
   * order; as long as every name comes once, the message does not depend
   * on that order.
   */
  lemma CommitMessageAnyOrder(p: seq<Entry>, q: seq<Entry>)
    requires multiset(p) == multiset(q)
    requires forall x, y :: x in p && y in p && x.0 == y.0 ==> x == y
    ensures CommitMessage(p) == CommitMessage(q)
  {
    var sp := Order.Sort(p, EntryKey);
    var sq := Order.Sort(q, EntryKey);
    assert forall x :: x in sp ==> x in p by {
      forall x | x in sp ensures x in p {
        assert x in multiset(sp);
      }
    }
    Order.SortedUnique(sp, sq, EntryKey);
  }

  /**
   * Whatever order the listers of the twigs finish in, `update` commits
   * with the same message: the registry keeps names unique.
   */
  lemma MessageAnyOrder(twigs: seq<Twig>, enabled: seq<bool>, lists: Twigs.StageId -> seq<string>, arrived: seq<Entry>)
    requires |twigs| == |enabled| && Twigs.UniqueNames(twigs)
    requires multiset(arrived) == multiset(Entries(twigs, enabled, lists, |twigs|))
    ensures CommitMessage(arrived) == CommitMessage(Entries(twigs, enabled, lists, |twigs|))
  {
    var entries := Entries(twigs, enabled, lists, |twigs|);
    EntryNamesUnique(twigs, enabled, lists);
    assert forall x :: x in arrived <==> x in entries by {
      forall x ensures x in arrived <==> x in entries {
        assert x in arrived <==> x in multiset(arrived);
      }
    }
    CommitMessageAnyOrder(arrived, entries);
  }

  /** The message names each twig that listed updates and each of its updates. */
  lemma MessageMentions(entries: seq<Entry>, k: nat)
    requires k < |entries|
    ensures exists j :: (0 <= j < |Paragraphs(Order.Sort(entries, EntryKey))| &&
      Paragraphs(Order.Sort(entries, EntryKey))[j] == entries[k].0 + "\n" + Join("\n", BulletLines(entries[k].1)))
  {
    var s := Order.Sort(entries, EntryKey);
    Order.SortKeepsElements(entries, EntryKey);
    assert entries[k] in s;
    var j :| 0 <= j < |s| && s[j] == entries[k];
    ParagraphsAt(s, j);
  }

  lemma {:induction false} ParagraphsAt(entries: seq<Entry>, j: nat)
    requires j < |entries|
    ensures |Paragraphs(entries)| == |entries|
    ensures Paragraphs(entries)[j] == entries[j].0 + "\n" + Join("\n", BulletLines(entries[j].1))
    decreases j
  {
    ParagraphsLength(entries);
    if j > 0 {
      ParagraphsAt(entries[1..], j - 1);
    }
  }

  lemma {:induction false} ParagraphsLength(entries: seq<Entry>)
    ensures |Paragraphs(entries)| == |entries|
    decreases |entries|
  {
    if entries != [] {
      ParagraphsLength(entries[1..]);
    }
  }

  // ---------------------------------------------------------------------
  // What the command shows

  /**
   * What listing shows after the headers queued before it: nothing when no
   * twig has updates, otherwise the queue, the title and every block.
   */
  function ListingOutput(columns: int, level: int, queued: seq<(int, string)>, twigs: seq<Twig>, enabled: seq<bool>,
                         lists: Twigs.StageId -> seq<string>): seq<string>
    requires |twigs| == |enabled|
  {
    if Entries(twigs, enabled, lists, |twigs|) == [] then []
    else Ui.HeaderLines(queued) + [HeaderLine(columns, level, Ui.Bold(ListingTitle))]
         + ListingLines(columns, level + 1, twigs, enabled, lists, |twigs|)
  }

  /**
   * What applying shows after the headers queued before it: an empty line,
   * then, when some twig has updates, the queue, the title and every block.
   */
  function ApplyingOutput(columns: int, level: int, queued: seq<(int, string)>, twigs: seq<Twig>, enabled: seq<bool>,
                          lists: Twigs.StageId -> seq<string>, applied: Twigs.StageId -> Option<string>): seq<string>
    requires |twigs| == |enabled|
  {
    [""] + (if Entries(twigs, enabled, lists, |twigs|) == [] then []
            else Ui.HeaderLines(queued) + [HeaderLine(columns, level, Ui.Bold(ApplyingTitle))]
                 + ApplyLines(columns, level + 1, twigs, enabled, lists, applied, |twigs|))
  }

  /**
   * The console part way through the twigs, under a title queued last in
   * `queued`: untouched while nothing has been shown; otherwise the queue,
   * then `lines`, with the queue emptied.
   */
  ghost predicate ShownSoFar(c: Ui.Console, base: seq<string>, queued: seq<(int, string)>, any: bool, lines: seq<string>)
    reads c
  {
    if any then c.out == base + Ui.HeaderLines(queued) + lines && c.headers == []
    else lines == [] && c.out == base && c.headers == queued
  }

  lemma Regroup<T>(a: seq<T>, b: seq<T>, c: seq<T>)
    ensures a + b + c == a + (b + c)
  {
  }

  lemma DropEmpty<T>(a: seq<T>, b: seq<T>)
    ensures a + [] == a && [] + b == b
  {
  }

  /** A title queued last and then shown: its line follows the earlier queue. */
  lemma TitleShown(base: seq<string>, queued: seq<(int, string)>, title: (int, string), lines: seq<string>)
    ensures base + Ui.HeaderLines(queued + [title]) + lines
         == base + (Ui.HeaderLines(queued) + [Ui.Pad(title.0) + title.1] + lines)
  {
    Ui.HeaderLinesAppend(queued, title);
    Regroup(base, Ui.HeaderLines(queued) + [Ui.Pad(title.0) + title.1], lines);
  }

  // ---------------------------------------------------------------------
  // The command

  /**
   * `with ui.section(header, delay=True): for update in updates: ui.log(ui.item(update))`:
   * a twig without updates shows nothing, not even its header.
   */
  method ListTwig(c: Ui.Console, t: Twig, updates: seq<string>)
    modifies c
    ensures c.level == old(c.level) && c.input == old(c.input) && c.fs == old(c.fs)
    ensures updates == [] ==> c.out == old(c.out) && c.headers == old(c.headers)
    ensures updates != [] ==>
      c.out == old(c.out) + Ui.HeaderLines(old(c.headers)) + Block(c.columns, old(c.level), t, updates) &&
      c.headers == []
  {
    ghost var header := (c.level, Ui.SectionHeader(TwigHeader(t), None, c.columns - |Ui.Indent| * c.level));
    var mark := c.BeginSection(Some(TwigHeader(t)), true, None);
    var k := 0;
    while k < |updates|
      invariant 0 <= k <= |updates|
      invariant c.level == old(c.level) + 1 && c.input == old(c.input) && c.fs == old(c.fs)
      invariant k == 0 ==> c.out == old(c.out) && c.headers == old(c.headers) + [header]
      invariant k > 0 ==>
        c.out == old(c.out) + Ui.HeaderLines(old(c.headers)) + Block(c.columns, old(c.level), t, updates[..k]) &&
        c.headers == []
    {
      if k == 0 {
        Ui.HeaderLinesAppend(old(c.headers), header);
      }
      c.Log(Ui.Item(updates[k]));
      assert updates[..k + 1][..k] == updates[..k];
      k := k + 1;
    }
    assert updates[..k] == updates;
    c.EndSection(mark);
  }

  /** The twig at `k`, if it is enabled, lists its updates after the twigs before it. */
  method ListTwigAt(c: Ui.Console, reg: Twigs.Registry, enabled: seq<bool>, lists: Twigs.StageId -> seq<string>, k: nat,
                    ghost base: seq<string>, ghost queued: seq<(int, string)>, ghost any: bool)
    returns (updates: seq<string>)
    requires reg.Valid() && |enabled| == |reg.twigs| && k < |reg.twigs|
    requires ShownSoFar(c, base, queued, any, ListingLines(c.columns, c.level, reg.twigs, enabled, lists, k))
    modifies c, reg
    ensures reg.twigs == old(reg.twigs) && reg.Valid()
    ensures reg.log == old(reg.log) + (if enabled[k] then Twigs.Calls(reg.twigs[k].name, reg.twigs[k].listers) else [])
    ensures c.level == old(c.level) && c.input == old(c.input) && c.fs == old(c.fs)
    ensures updates == if enabled[k] then Updates(reg.twigs, lists, k) else []
    ensures ShownSoFar(c, base, queued, any || updates != [],
                       ListingLines(c.columns, c.level, reg.twigs, enabled, lists, k + 1))
  {
    ghost var lines := ListingLines(c.columns, c.level, reg.twigs, enabled, lists, k);
    ghost var before := c.out;
    updates := [];
    if enabled[k] {
      updates := reg.Updates(k, lists);
      ListTwig(c, reg.twigs[k], updates);
    }
    if updates != [] {
      ghost var block := Block(c.columns, c.level, reg.twigs[k], updates);
      assert ListingLines(c.columns, c.level, reg.twigs, enabled, lists, k + 1) == lines + block;
      if any {
        assert c.out == before + [] + block;
        DropEmpty(before, block);
        Regroup(base + Ui.HeaderLines(queued), lines, block);
      } else {
        DropEmpty(lines, block);
      }
    }
  }

  /**
   * The first half of `update`: every enabled twig lists its updates in a
   * delayed section inside the delayed section of the title, so that
   * nothing at all is shown when no twig has updates.
   */
  method ListAll(c: Ui.Console, reg: Twigs.Registry, enabled: seq<bool>, lists: Twigs.StageId -> seq<string>)
    returns (entries: seq<Entry>)
    requires reg.Valid() && |enabled| == |reg.twigs|
    modifies c, reg
    ensures reg.twigs == old(reg.twigs) && reg.Valid()
    ensures reg.log == old(reg.log) + ListingCalls(reg.twigs, enabled, |reg.twigs|)
    ensures entries == Entries(reg.twigs, enabled, lists, |reg.twigs|)
    ensures c.level == old(c.level) && c.input == old(c.input) && c.fs == old(c.fs)
    ensures c.out == old(c.out) + ListingOutput(c.columns, old(c.level), old(c.headers), reg.twigs, enabled, lists)
    ensures c.headers == if entries == [] then old(c.headers) else []
  {
    ghost var twigs, L, base, log, headers := reg.twigs, c.level, c.out, reg.log, c.headers;
    ghost var title := (L, Ui.SectionHeader(Ui.Bold(ListingTitle), None, c.columns - |Ui.Indent| * L));
    ghost var queued := headers + [title];
    var mark := c.BeginSection(Some(Ui.Bold(ListingTitle)), true, None);
    entries := ListTwigs(c, reg, enabled, lists, base, queued);
    c.EndSection(mark);
    if entries == [] {
      assert queued[..|queued| - 1] == headers;
    } else {
      TitleShown(base, headers, title, ListingLines(c.columns, L + 1, twigs, enabled, lists, |twigs|));
    }
  }

  /** What the listing loop keeps after the first `k` twigs: the calls made, the entries, and what is shown. */
  ghost predicate ListingProgress(c: Ui.Console, reg: Twigs.Registry, twigs: seq<Twig>, enabled: seq<bool>,
                                  lists: Twigs.StageId -> seq<string>, base: seq<string>, queued: seq<(int, string)>,
                                  log: seq<Twigs.Event>, level: int, entries: seq<Entry>, k: nat)
    reads c, reg
  {
    k <= |twigs| == |enabled| && reg.twigs == twigs && reg.Valid() && c.level == level &&
    reg.log == log + ListingCalls(twigs, enabled, k) &&
    entries == Entries(twigs, enabled, lists, k) &&
    ShownSoFar(c, base, queued, entries != [], ListingLines(c.columns, level, twigs, enabled, lists, k))
  }

  /** The loop of `update` over the twigs, listing each enabled twig's updates in turn. */
  method ListTwigs(c: Ui.Console, reg: Twigs.Registry, enabled: seq<bool>, lists: Twigs.StageId -> seq<string>,
                   ghost base: seq<string>, ghost queued: seq<(int, string)>)
    returns (entries: seq<Entry>)
    requires reg.Valid() && |enabled| == |reg.twigs|
    requires ShownSoFar(c, base, queued, false, [])
    modifies c, reg
    ensures reg.twigs == old(reg.twigs) && reg.Valid()
    ensures reg.log == old(reg.log) + ListingCalls(reg.twigs, enabled, |reg.twigs|)
    ensures entries == Entries(reg.twigs, enabled, lists, |reg.twigs|)
    ensures c.level == old(c.level) && c.input == old(c.input) && c.fs == old(c.fs)
    ensures ShownSoFar(c, base, queued, entries != [], ListingLines(c.columns, c.level, reg.twigs, enabled, lists, |reg.twigs|))
  {
    ghost var twigs, L, log := reg.twigs, c.level, reg.log;
    entries := [];
    var n := |reg.twigs|;
    var k := 0;
    while k < n
      invariant n == |twigs| && k <= n
      invariant c.input == old(c.input) && c.fs == old(c.fs)
      invariant ListingProgress(c, reg, twigs, enabled, lists, base, queued, log, L, entries, k)
    {
      entries := ListStep(c, reg, twigs, enabled, lists, k, base, queued, log, L, entries);
      k := k + 1;
    }
  }

  /** One round of the loop of `update`: the twig at `k` lists its updates, which join the entries. */
  method ListStep(c: Ui.Console, reg: Twigs.Registry, ghost twigs: seq<Twig>, enabled: seq<bool>,
                  lists: Twigs.StageId -> seq<string>, k: nat, ghost base: seq<string>, ghost queued: seq<(int, string)>,
                  ghost log: seq<Twigs.Event>, ghost level: int, entries: seq<Entry>)
    returns (entries': seq<Entry>)
    requires k < |twigs|
    requires ListingProgress(c, reg, twigs, enabled, lists, base, queued, log, level, entries, k)
    modifies c, reg
    ensures c.input == old(c.input) && c.fs == old(c.fs)
    ensures ListingProgress(c, reg, twigs, enabled, lists, base, queued, log, level, entries', k + 1)
  {
    ghost var calls := ListingCalls(twigs, enabled, k);
    var updates := ListTwigAt(c, reg, enabled, lists, k, base, queued, entries != []);
    entries' := entries;
    if updates != [] {
      entries' := entries + [(reg.twigs[k].name, updates)];
    }
    Regroup(log, calls, if enabled[k] then Twigs.Calls(twigs[k].name, twigs[k].listers) else []);
  }

  /**
   * The section of one twig while updating: shown at once, with the
   * instructions its applier chain returns, if any.
   */
  method ApplyTwig(c: Ui.Console, reg: Twigs.Registry, i: nat, applied: Twigs.StageId -> Option<string>)
    requires reg.Valid() && i < |reg.twigs|
    modifies c, reg
    ensures reg.twigs == old(reg.twigs) && reg.Valid()
    ensures reg.log == old(reg.log) + Twigs.Calls(reg.twigs[i].name, reg.twigs[i].appliers)
    ensures c.level == old(c.level) && c.input == old(c.input) && c.fs == old(c.fs)
    ensures c.out == old(c.out) + Ui.HeaderLines(old(c.headers))
      + ApplyBlock(c.columns, old(c.level), reg.twigs[i], Twigs.ApplyUpdates(reg.twigs[i].appliers, applied))
    ensures c.headers == []
  {
    var mark := c.BeginSection(Some(ApplyingHeader(reg.twigs[i])), false, None);
    var instructions := reg.Update(i, applied);
    if instructions.Some? {
      c.Log(instructions.value);
    }
    c.EndSection(mark);
  }

  /** The twig at `k`, if it is enabled and has updates, is updated after the twigs before it. */
  method ApplyTwigAt(c: Ui.Console, reg: Twigs.Registry, enabled: seq<bool>, lists: Twigs.StageId -> seq<string>,
                     applied: Twigs.StageId -> Option<string>, k: nat,
                     ghost base: seq<string>, ghost queued: seq<(int, string)>, ghost any: bool)
    returns (listed: bool)
    requires reg.Valid() && |enabled| == |reg.twigs| && k < |reg.twigs|
    requires ShownSoFar(c, base, queued, any, ApplyLines(c.columns, c.level, reg.twigs, enabled, lists, applied, k))
    modifies c, reg
    ensures reg.twigs == old(reg.twigs) && reg.Valid()
    ensures reg.log == old(reg.log) +
      (if enabled[k]
       then Twigs.Calls(reg.twigs[k].name, reg.twigs[k].listers)
            + (if listed then Twigs.Calls(reg.twigs[k].name, reg.twigs[k].appliers) else [])
       else [])
    ensures c.level == old(c.level) && c.input == old(c.input) && c.fs == old(c.fs)
    ensures listed == Listed(reg.twigs, enabled, lists, k)
    ensures ShownSoFar(c, base, queued, any || listed,
                       ApplyLines(c.columns, c.level, reg.twigs, enabled, lists, applied, k + 1))
  {
    ghost var lines := ApplyLines(c.columns, c.level, reg.twigs, enabled, lists, applied, k);
    ghost var before := c.out;
    ghost var log := reg.log;
    listed := false;
    if enabled[k] {
      var updates := reg.Updates(k, lists);
      if |updates| > 0 {
        ApplyTwig(c, reg, k, applied);
        listed := true;
        Regroup(log, Twigs.Calls(reg.twigs[k].name, reg.twigs[k].listers), Twigs.Calls(reg.twigs[k].name, reg.twigs[k].appliers));
      } else {
        DropEmpty(Twigs.Calls(reg.twigs[k].name, reg.twigs[k].listers), []);
      }
    }
    if listed {
      ghost var block := ApplyBlock(c.columns, c.level, reg.twigs[k], Twigs.ApplyUpdates(reg.twigs[k].appliers, applied));
      assert ApplyLines(c.columns, c.level, reg.twigs, enabled, lists, applied, k + 1) == lines + block;
      if any {
        assert c.out == before + [] + block;
        DropEmpty(before, block);
        Regroup(base + Ui.HeaderLines(queued), lines, block);
      } else {
        DropEmpty(lines, block);
      }
    }
  }

  /**
   * The second half of `update` with `apply`: an empty line, then every
   * enabled twig that has updates is updated in its own section, inside
   * the delayed section of the title.
   */
  method ApplyAll(c: Ui.Console, reg: Twigs.Registry, enabled: seq<bool>, lists: Twigs.StageId -> seq<string>,
                  applied: Twigs.StageId -> Option<string>)
    requires reg.Valid() && |enabled| == |reg.twigs|
    modifies c, reg
    ensures reg.twigs == old(reg.twigs) && reg.Valid()
    ensures reg.log == old(reg.log) + ApplyCalls(reg.twigs, enabled, lists, |reg.twigs|)
    ensures c.level == old(c.level) && c.input == old(c.input) && c.fs == old(c.fs)
    ensures c.out == old(c.out) + ApplyingOutput(c.columns, old(c.level), old(c.headers), reg.twigs, enabled, lists, applied)
    ensures c.headers == if Entries(reg.twigs, enabled, lists, |reg.twigs|) == [] then old(c.headers) else []
  {
    ghost var twigs, L, log, headers := reg.twigs, c.level, reg.log, c.headers;
    ghost var title := (L, Ui.SectionHeader(Ui.Bold(ApplyingTitle), None, c.columns - |Ui.Indent| * L));
    ghost var queued := headers + [title];
    var mark := c.BeginSection(Some(Ui.Bold(ApplyingTitle)), true, None);
    c.Echo("");
    ghost var base := c.out;
    ghost var any := ApplyTwigs(c, reg, enabled, lists, applied, base, queued);
    c.EndSection(mark);
    if !any {
      assert queued[..|queued| - 1] == headers;
      DropEmpty(old(c.out) + [""], []);
    } else {
      TitleShown(old(c.out) + [""], headers, title, ApplyLines(c.columns, L + 1, twigs, enabled, lists, applied, |twigs|));
      Regroup(old(c.out), [""],
        Ui.HeaderLines(headers) + [HeaderLine(c.columns, L, Ui.Bold(ApplyingTitle))]
        + ApplyLines(c.columns, L + 1, twigs, enabled, lists, applied, |twigs|));
    }
  }

  /** What the updating loop keeps after the first `k` twigs: the calls made and what is shown. */
  ghost predicate ApplyingProgress(c: Ui.Console, reg: Twigs.Registry, twigs: seq<Twig>, enabled: seq<bool>,
                                   lists: Twigs.StageId -> seq<string>, applied: Twigs.StageId -> Option<string>,
                                   base: seq<string>, queued: seq<(int, string)>, log: seq<Twigs.Event>, level: int,
                                   any: bool, k: nat)
    reads c, reg
  {
    k <= |twigs| == |enabled| && reg.twigs == twigs && reg.Valid() && c.level == level &&
    reg.log == log + ApplyCalls(twigs, enabled, lists, k) &&
    (any <==> Entries(twigs, enabled, lists, k) != []) &&
    ShownSoFar(c, base, queued, any, ApplyLines(c.columns, level, twigs, enabled, lists, applied, k))
  }

  /** The loop of `update` with `apply` over the twigs, updating each enabled twig that listed updates. */
  method ApplyTwigs(c: Ui.Console, reg: Twigs.Registry, enabled: seq<bool>, lists: Twigs.StageId -> seq<string>,
                    applied: Twigs.StageId -> Option<string>, ghost base: seq<string>, ghost queued: seq<(int, string)>)
    returns (ghost any: bool)
    requires reg.Valid() && |enabled| == |reg.twigs|
    requires ShownSoFar(c, base, queued, false, [])
    modifies c, reg
    ensures reg.twigs == old(reg.twigs) && reg.Valid()
    ensures reg.log == old(reg.log) + ApplyCalls(reg.twigs, enabled, lists, |reg.twigs|)
    ensures any <==> Entries(reg.twigs, enabled, lists, |reg.twigs|) != []
    ensures c.level == old(c.level) && c.input == old(c.input) && c.fs == old(c.fs)
    ensures ShownSoFar(c, base, queued, any, ApplyLines(c.columns, c.level, reg.twigs, enabled, lists, applied, |reg.twigs|))
  {
    ghost var twigs, L, log := reg.twigs, c.level, reg.log;
    any := false;
    var n := |reg.twigs|;
    var k := 0;
    while k < n
      invariant n == |twigs| && k <= n
      invariant c.input == old(c.input) && c.fs == old(c.fs)
      invariant ApplyingProgress(c, reg, twigs, enabled, lists, applied, base, queued, log, L, any, k)
    {
      any := ApplyStep(c, reg, twigs, enabled, lists, applied, k, base, queued, log, L, any);
      k := k + 1;
    }
  }

  /** One round of the loop of `update` with `apply`: the twig at `k` is updated if it listed updates. */
  method ApplyStep(c: Ui.Console, reg: Twigs.Registry, ghost twigs: seq<Twig>, enabled: seq<bool>,
                   lists: Twigs.StageId -> seq<string>, applied: Twigs.StageId -> Option<string>, k: nat,
                   ghost base: seq<string>, ghost queued: seq<(int, string)>, ghost log: seq<Twigs.Event>,
                   ghost level: int, ghost any: bool)
    returns (ghost any': bool)
    requires k < |twigs|
    requires ApplyingProgress(c, reg, twigs, enabled, lists, applied, base, queued, log, level, any, k)
    modifies c, reg
    ensures c.input == old(c.input) && c.fs == old(c.fs)
    ensures ApplyingProgress(c, reg, twigs, enabled, lists, applied, base, queued, log, level, any', k + 1)
  {
    ghost var calls := ApplyCalls(twigs, enabled, lists, k);
    var listed := ApplyTwigAt(c, reg, enabled, lists, applied, k, base, queued, any);
    any' := any || listed;
    Regroup(log, calls,
      if enabled[k]
      then Twigs.Calls(twigs[k].name, twigs[k].listers)
           + (if listed then Twigs.Calls(twigs[k].name, twigs[k].appliers) else [])
      else []);
  }

  /**
   * `update(apply)`: the updates of the enabled twigs are listed; with
   * `apply` they are applied as well, and the result is the message of
   * the commit that records them.
   */
  method Update(c: Ui.Console, reg: Twigs.Registry, enabled: seq<bool>, apply: bool,
                lists: Twigs.StageId -> seq<string>, applied: Twigs.StageId -> Option<string>)
    returns (message: Option<string>)
    requires reg.Valid() && |enabled| == |reg.twigs|
    modifies c, reg
    ensures reg.twigs == old(reg.twigs) && reg.Valid()
    ensures reg.log == old(reg.log) + ListingCalls(reg.twigs, enabled, |reg.twigs|)
                      + (if apply then ApplyCalls(reg.twigs, enabled, lists, |reg.twigs|) else [])
    ensures message == if apply then Some(CommitMessage(Entries(reg.twigs, enabled, lists, |reg.twigs|))) else None
    ensures c.level == old(c.level) && c.input == old(c.input) && c.fs == old(c.fs)
    ensures c.out == old(c.out)
      + ListingOutput(c.columns, old(c.level), old(c.headers), reg.twigs, enabled, lists)
      + (if apply
         then ApplyingOutput(c.columns, old(c.level),
                if Entries(reg.twigs, enabled, lists, |reg.twigs|) == [] then old(c.headers) else [],
                reg.twigs, enabled, lists, applied)
         else [])
    ensures c.headers == if Entries(reg.twigs, enabled, lists, |reg.twigs|) == [] then old(c.headers) else []
  {
    var entries := ListAll(c, reg, enabled, lists);
    message := None;
    if apply {
      ApplyAll(c, reg, enabled, lists, applied);
      message := Some(CommitMessage(entries));
    } else {
      DropEmpty(reg.log, []);
      DropEmpty(c.out, []);
    }
  }
}
