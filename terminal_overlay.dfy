/**
 * The `terminal_overlay` twig (`twigs/terminal_overlay/__init__.py`): two
 * GNOME custom key bindings kept in dconf below `PATH`, each in a directory
 * `customN/` of its own. Installing adds the missing bindings under fresh
 * indices, the check asks whether any binding is missing, and removing
 * resets every directory that holds one of them.
 *
 * Only the directory `PATH/` of the dconf database is modelled: the items
 * `dconf list PATH/` prints (directories end with `/`) and the values of
 * the keys below it, as the GVariant texts that `dconf write` takes and
 * `dconf read` prints.
 */
module TerminalOverlay {
  import opened Wrappers
  import opened Text

  /** `PATH`: where GNOME keeps custom key bindings. */
  const Path: string := "/org/gnome/settings-daemon/plugins/media-keys/custom-keybindings"

  /** One entry of `BINDINGS`; every value is a GVariant text, quotes included. */
  datatype Binding = Binding(name: string, binding: string, command: string)

  /** `BINDINGS`: toggling the overlay, and moving it to the next monitor. */
  const Bindings: seq<Binding> := [
    Binding("'Toggle Terminal Overlay'", "'<Primary>section'",
      "'dbus-send --session --dest=com.newrainsoftware.TerminalOverlay --type=method_call "
      + "/com/newrainsoftware/TerminalOverlay com.newrainsoftware.TerminalOverlay.Toggle'"),
    Binding("'Cycle Terminal Overlay Monitor'", "'<Primary>Tab'",
      "'dbus-send --session --dest=com.newrainsoftware.TerminalOverlay --type=method_call "
      + "/com/newrainsoftware/TerminalOverlay com.newrainsoftware.TerminalOverlay.CycleDisplay'")]

  /** `binding.items()`: the keys of a binding with their values, in the order of the dictionary. */
  function Fields(b: Binding): seq<(string, string)> {
    [("name", b.name), ("binding", b.binding), ("command", b.command)]
  }

  /** `any(name == binding['name'] for binding in BINDINGS)` */
  predicate IsBindingName(name: string) {
    exists k :: 0 <= k < |Bindings| && Bindings[k].name == name
  }

  /** What dconf holds below `PATH/`: the listed items and the values of the keys. */
  datatype Store = Store(listing: seq<string>, values: map<string, string>)

  /** The dconf path of `key` in the listed `item`: `'{PATH}/{item}{key}'`. */
  function KeyPath(item: string, key: string): string {
    Path + "/" + item + key
  }

  /** `dconf read`: the value of the key, or the empty text dconf prints for an unset one. */
  function Read(s: Store, item: string, key: string): string {
    if KeyPath(item, key) in s.values then s.values[KeyPath(item, key)] else ""
  }

  /** `dconf write`: the key is set, and its directory shows in the listing. */
  function Write(s: Store, item: string, key: string, value: string): Store {
    Store(if item in s.listing then s.listing else s.listing + [item], s.values[KeyPath(item, key) := value])
  }

  /** The keys `dconf reset -f PATH/item` clears: everything below a directory, or the one key. */
  predicate Covers(item: string, key: string) {
    var p := Path + "/" + item;
    if item != [] && item[|item| - 1] == '/' then StartsWith(key, p) else key == p
  }

  /** The listing without `item`. */
  function Without(listing: seq<string>, item: string): (r: seq<string>)
    ensures forall x :: x in r <==> x in listing && x != item
  {
    if listing == [] then [] else (if listing[0] == item then [] else [listing[0]]) + Without(listing[1..], item)
  }

  /** `dconf reset -f PATH/item`: the keys it covers are cleared and the item leaves the listing. */
  function Reset(s: Store, item: string): Store {
    Store(Without(s.listing, item), map k | k in s.values && !Covers(item, k) :: s.values[k])
  }

  predicate IsDigit(c: char) {
    '0' <= c <= '9'
  }

  predicate AllDigits(s: string) {
    forall i :: 0 <= i < |s| ==> IsDigit(s[i])
  }

  /** The longest prefix of `s` made of digits: what the greedy `[0-9]+` takes. */
  function DigitRun(s: string): (r: string)
    ensures |r| <= |s| && r == s[..|r|]
    ensures AllDigits(r)
    ensures |r| < |s| ==> !IsDigit(s[|r|])
  {
    if s != [] && IsDigit(s[0]) then [s[0]] + DigitRun(s[1..]) else []
  }

  /** `int(digits)` */
  function DecimalValue(ds: string): nat
    requires AllDigits(ds)
  {
    if ds == [] then 0 else 10 * DecimalValue(ds[..|ds| - 1]) + (ds[|ds| - 1] as int - '0' as int)
  }

  /**
   * `CUSTOM_BINDING_RE.match(item)`: the item starts with `custom` and at
   * least one digit, and the number is that of all the digits that follow.
   */
  function CustomIndex(item: string): Option<nat> {
    if |item| > 6 && item[..6] == "custom" && IsDigit(item[6]) then Some(DecimalValue(DigitRun(item[6..])))
    else None
  }

  /** The directory item of index `n`: `custom{n}/`. */
  function Item(n: nat): string {
    "custom" + NatToString(n) + "/"
  }

  /** `int(str(n)) == n` */
  lemma {:induction false} DecimalRoundTrip(n: nat)
    ensures DecimalValue(NatToString(n)) == n
  {
    if n >= 10 {
      var ds := NatToString(n);
      assert ds[..|ds| - 1] == NatToString(n / 10);
      DecimalRoundTrip(n / 10);
    }
  }

  /** The digit run stops at the first character that is not a digit. */
  lemma {:induction false} DigitRunStops(ds: string, rest: string)
    requires AllDigits(ds)
    requires rest != [] && !IsDigit(rest[0])
    ensures DigitRun(ds + rest) == ds
  {
    if ds != [] {
      assert (ds + rest)[1..] == ds[1..] + rest;
      DigitRunStops(ds[1..], rest);
    }
  }

  /** The item written for index `n`, and any key in it, matches with that index. */
  lemma ItemIndex(n: nat, key: string)
    ensures CustomIndex(Item(n) + key) == Some(n)
  {
    var s := Item(n) + key;
    var ds := NatToString(n);
    assert s == "custom" + (ds + ("/" + key));
    assert s[6..] == ds + ("/" + key);
    DigitRunStops(ds, "/" + key);
    DecimalRoundTrip(n);
  }

  /** Two key paths in items `custom{a}/` and `custom{b}/` are equal only for the same index and key. */
  lemma ItemKeysDistinct(a: nat, b: nat, k1: string, k2: string)
    ensures KeyPath(Item(a), k1) == KeyPath(Item(b), k2) ==> a == b && k1 == k2
  {
    if KeyPath(Item(a), k1) == KeyPath(Item(b), k2) {
      var p := Path + "/";
      assert KeyPath(Item(a), k1) == p + (Item(a) + k1);
      assert KeyPath(Item(b), k2) == p + (Item(b) + k2);
      assert Item(a) + k1 == (p + (Item(a) + k1))[|p|..];
      ItemIndex(a, k1);
      ItemIndex(b, k2);
      assert Item(a) == Item(b);
      assert k1 == (Item(a) + k1)[|Item(a)|..];
    }
  }

  /** `max(index of each matching item, default=0)` */
  function MaxIndex(listing: seq<string>): nat {
    if listing == [] then 0
    else
      var m := MaxIndex(listing[..|listing| - 1]);
      var c := CustomIndex(listing[|listing| - 1]);
      if c.Some? && c.value > m then c.value else m
  }

  /** `next_index`: the index the first missing binding is written under. */
  function NextIndex(listing: seq<string>): nat {
    MaxIndex(listing) + 1
  }

  /**
   * The largest index bounds every matching item and is one of them; with
   * no matching item it is 0, so installing starts at 1.
   */
  lemma {:induction false} MaxIndexMeaning(listing: seq<string>)
    ensures forall i :: 0 <= i < |listing| && CustomIndex(listing[i]).Some? ==>
      CustomIndex(listing[i]).value <= MaxIndex(listing)
    ensures (exists i :: 0 <= i < |listing| && CustomIndex(listing[i]).Some?) ==>
      exists i :: 0 <= i < |listing| && CustomIndex(listing[i]) == Some(MaxIndex(listing))
    ensures (forall i :: 0 <= i < |listing| ==> CustomIndex(listing[i]).None?) ==> NextIndex(listing) == 1
  {
    if listing != [] {
      var front := listing[..|listing| - 1];
      MaxIndexMeaning(front);
      assert forall i :: 0 <= i < |front| ==> front[i] == listing[i];
      var c := CustomIndex(listing[|listing| - 1]);
      if !(c.Some? && c.value > MaxIndex(front)) {
        if exists i :: 0 <= i < |listing| && CustomIndex(listing[i]).Some? {
          if c.None? || MaxIndex(front) != c.value {
            var i :| 0 <= i < |listing| && CustomIndex(listing[i]).Some?;
            if i == |listing| - 1 {
              assert c.Some? && c.value < MaxIndex(front);
            }
            assert exists i :: 0 <= i < |front| && CustomIndex(front[i]).Some?;
            var j :| 0 <= j < |front| && CustomIndex(front[j]) == Some(MaxIndex(front));
            assert CustomIndex(listing[j]) == Some(MaxIndex(listing));
          }
        }
      }
    }
  }

  /** `[dconf.read(PATH/{item}name) for item in dconf.list(PATH/)]` */
  function CurrentNames(s: Store): seq<string> {
    seq(|s.listing|, j requires 0 <= j < |s.listing| => Read(s, s.listing[j], "name"))
  }

  /** The bindings of `bs` whose name is not among `names`, in their order. */
  function Keep(bs: seq<Binding>, names: seq<string>): seq<Binding> {
    if bs == [] then [] else (if bs[0].name in names then [] else [bs[0]]) + Keep(bs[1..], names)
  }

  /** When every binding is named, none is kept. */
  lemma {:induction false} KeepAllNamed(bs: seq<Binding>, names: seq<string>)
    requires forall k :: 0 <= k < |bs| ==> bs[k].name in names
    ensures Keep(bs, names) == []
  {
    if bs != [] {
      assert forall k :: 0 <= k < |bs| - 1 ==> bs[1..][k] == bs[k + 1];
      KeepAllNamed(bs[1..], names);
    }
  }

  /** `a` is `b` with some elements left out, the others in their order. */
  predicate Subsequence<T(==)>(a: seq<T>, b: seq<T>)
    decreases |b|
  {
    a == [] || (b != [] && if a[0] == b[0] then Subsequence(a[1..], b[1..]) else Subsequence(a, b[1..]))
  }

  /** `Keep` drops exactly the bindings named and keeps the others in their order. */
  lemma {:induction false} KeepMeaning(bs: seq<Binding>, names: seq<string>)
    ensures forall b :: b in Keep(bs, names) <==> b in bs && b.name !in names
    ensures Subsequence(Keep(bs, names), bs)
    ensures (forall k :: 0 <= k < |bs| ==> bs[k].name !in names) ==> Keep(bs, names) == bs
  {
    if bs != [] {
      KeepMeaning(bs[1..], names);
      var r := Keep(bs, names);
      var rest := Keep(bs[1..], names);
      if bs[0].name in names {
        assert r == rest;
        if r != [] && r[0] == bs[0] {
          assert r[0] in rest;
        }
      } else {
        assert r == [bs[0]] + rest;
        assert r[1..] == rest;
      }
    }
  }

  /** `_list_missing(me)` */
  function Missing(s: Store): seq<Binding> {
    Keep(Bindings, CurrentNames(s))
  }

  /** `is_installed(me)`: no binding is missing. */
  predicate IsInstalled(s: Store) {
    |Missing(s)| == 0
  }

  /** The names read are those some listed item stores. */
  lemma CurrentNamesMeaning(s: Store)
    ensures forall n :: n in CurrentNames(s) <==>
      exists j :: 0 <= j < |s.listing| && Read(s, s.listing[j], "name") == n
  {
    var names := CurrentNames(s);
    forall n | n in names ensures exists j :: 0 <= j < |s.listing| && Read(s, s.listing[j], "name") == n {
      var j :| 0 <= j < |names| && names[j] == n;
    }
    forall n | exists j :: 0 <= j < |s.listing| && Read(s, s.listing[j], "name") == n ensures n in names {
      var j :| 0 <= j < |s.listing| && Read(s, s.listing[j], "name") == n;
      assert names[j] == n;
    }
  }

  /**
   * The missing bindings are exactly those whose name no listed item
   * stores, in the order of `BINDINGS`; the twig is installed exactly when
   * every binding's name is stored by some listed item.
   */
  lemma MissingMeaning(s: Store)
    ensures forall b :: b in Missing(s) <==>
      b in Bindings && forall j :: 0 <= j < |s.listing| ==> Read(s, s.listing[j], "name") != b.name
    ensures Subsequence(Missing(s), Bindings)
    ensures IsInstalled(s) <==>
      forall k :: 0 <= k < |Bindings| ==> exists j :: 0 <= j < |s.listing| && Read(s, s.listing[j], "name") == Bindings[k].name
  {
    KeepMeaning(Bindings, CurrentNames(s));
    CurrentNamesMeaning(s);
    if IsInstalled(s) {
      forall k | 0 <= k < |Bindings|
        ensures exists j :: 0 <= j < |s.listing| && Read(s, s.listing[j], "name") == Bindings[k].name
      {
        assert Bindings[k] !in Missing(s);
      }
    } else {
      assert Missing(s)[0] in Missing(s);
    }
  }

  /** A `dconf write` of `value` to the `key` of `item`. */
  type WriteOp = (string, string, string)

  /** The writes of one binding's keys into `item`. */
  function Writes(item: string, fields: seq<(string, string)>): seq<WriteOp> {
    seq(|fields|, f requires 0 <= f < |fields| => (item, fields[f].0, fields[f].1))
  }

  /** The store after the writes, in their order. */
  function ApplyWrites(s: Store, ws: seq<WriteOp>): Store {
    if ws == [] then s
    else
      var w := ws[|ws| - 1];
      Write(ApplyWrites(s, ws[..|ws| - 1]), w.0, w.1, w.2)
  }

  /** Writing `a` and then `b` is writing `a + b`. */
  lemma {:induction false} ApplyWritesAppend(s: Store, a: seq<WriteOp>, b: seq<WriteOp>)
    ensures ApplyWrites(s, a + b) == ApplyWrites(ApplyWrites(s, a), b)
  {
    if b != [] {
      assert (a + b)[..|a + b| - 1] == a + b[..|b| - 1];
      ApplyWritesAppend(s, a, b[..|b| - 1]);
    } else {
      assert a + b == a;
    }
  }

  /** Writes keep every listed item and list every item written to. */
  lemma {:induction false} ApplyWritesListing(s: Store, ws: seq<WriteOp>)
    ensures forall x :: x in s.listing ==> x in ApplyWrites(s, ws).listing
    ensures forall i :: 0 <= i < |ws| ==> ws[i].0 in ApplyWrites(s, ws).listing
  {
    if ws != [] {
      ApplyWritesListing(s, ws[..|ws| - 1]);
    }
  }

  /** A key no write names keeps its value. */
  lemma {:induction false} ApplyWritesUntouched(s: Store, ws: seq<WriteOp>, p: string)
    requires p in s.values
    requires forall i :: 0 <= i < |ws| ==> KeyPath(ws[i].0, ws[i].1) != p
    ensures p in ApplyWrites(s, ws).values && ApplyWrites(s, ws).values[p] == s.values[p]
  {
    if ws != [] {
      ApplyWritesUntouched(s, ws[..|ws| - 1], p);
    }
  }

  /** A key takes the value of the last write that names it. */
  lemma {:induction false} ApplyWritesLast(s: Store, ws: seq<WriteOp>, i: nat)
    requires i < |ws|
    requires forall j :: i < j < |ws| ==> KeyPath(ws[j].0, ws[j].1) != KeyPath(ws[i].0, ws[i].1)
    ensures KeyPath(ws[i].0, ws[i].1) in ApplyWrites(s, ws).values
    ensures ApplyWrites(s, ws).values[KeyPath(ws[i].0, ws[i].1)] == ws[i].2
  {
    if i < |ws| - 1 {
      var front := ws[..|ws| - 1];
      assert front[i] == ws[i];
      assert forall j :: i < j < |front| ==> front[j] == ws[j];
      ApplyWritesLast(s, front, i);
    }
  }

  /** The writes of `main`: the keys of the `k`-th missing binding go to `custom{n + k}/`. */
  function InstallWrites(missing: seq<Binding>, n: nat): seq<WriteOp> {
    if missing == [] then []
    else InstallWrites(missing[..|missing| - 1], n) + Writes(Item(n + |missing| - 1), Fields(missing[|missing| - 1]))
  }

  /** Write `i` is key `i % 3` of missing binding `i / 3`, in item `custom{n + i / 3}/`. */
  lemma {:induction false} InstallWritesAt(missing: seq<Binding>, n: nat)
    ensures |InstallWrites(missing, n)| == 3 * |missing|
    ensures forall i :: 0 <= i < |InstallWrites(missing, n)| ==>
      InstallWrites(missing, n)[i] == (Item(n + i / 3), Fields(missing[i / 3])[i % 3].0, Fields(missing[i / 3])[i % 3].1)
  {
    if missing != [] {
      var front := missing[..|missing| - 1];
      InstallWritesAt(front, n);
      var ws := InstallWrites(missing, n);
      var last := |missing| - 1;
      forall i | 0 <= i < |ws|
        ensures ws[i] == (Item(n + i / 3), Fields(missing[i / 3])[i % 3].0, Fields(missing[i / 3])[i % 3].1)
      {
        if i < 3 * last {
          assert ws[i] == InstallWrites(front, n)[i];
          assert i / 3 < last && front[i / 3] == missing[i / 3];
        } else {
          assert i / 3 == last && ws[i] == Writes(Item(n + last), Fields(missing[last]))[i - 3 * last];
        }
      }
    }
  }

  /** `main(me)`: the store after the missing bindings are written under fresh indices. */
  function Installed(s: Store): Store {
    ApplyWrites(s, InstallWrites(Missing(s), NextIndex(s.listing)))
  }

  /** The key `p` lies in directory `item`. */
  predicate Below(p: string, item: string) {
    StartsWith(p, Path + "/" + item)
  }

  /** No two writes of `main` name the same key. */
  lemma WriteKeysDistinct(m: seq<Binding>, n: nat, i: nat, j: nat)
    requires i < j < |InstallWrites(m, n)|
    ensures KeyPath(InstallWrites(m, n)[i].0, InstallWrites(m, n)[i].1) !=
            KeyPath(InstallWrites(m, n)[j].0, InstallWrites(m, n)[j].1)
  {
    var ws := InstallWrites(m, n);
    InstallWritesAt(m, n);
    ItemKeysDistinct(n + i / 3, n + j / 3, ws[i].1, ws[j].1);
    assert i / 3 == j / 3 ==> i % 3 != j % 3;
  }

  /** A listed item that is not a fresh `customN/` item keeps its stored name. */
  lemma NameNotOverwritten(x: string, j: nat, key: string)
    requires CustomIndex(x).None? || CustomIndex(x).value < j
    requires key == "name" || key == "binding" || key == "command"
    ensures KeyPath(x, "name") != KeyPath(Item(j), key)
  {
    if KeyPath(x, "name") == KeyPath(Item(j), key) {
      var a := KeyPath(x, "name");
      var b := KeyPath(Item(j), key);
      assert a[|a| - 1] == 'e';
      assert key == "name" by {
        assert b[|b| - 1] == key[|key| - 1];
      }
      var p := Path + "/";
      assert a == p + x + "name" && b == p + Item(j) + "name";
      assert x == a[|p|..|a| - 4] && Item(j) == b[|p|..|b| - 4];
      assert Item(j) + "" == Item(j);
      ItemIndex(j, "");
      assert false;
    }
  }

  /** Writing bindings `m` from index `n` on puts the keys of the `k`-th into item `custom{n + k}/`. */
  lemma WrittenAt(s: Store, m: seq<Binding>, n: nat, k: nat, f: nat)
    requires k < |m| && f < 3
    ensures Item(n + k) in ApplyWrites(s, InstallWrites(m, n)).listing
    ensures Read(ApplyWrites(s, InstallWrites(m, n)), Item(n + k), Fields(m[k])[f].0) == Fields(m[k])[f].1
  {
    var ws := InstallWrites(m, n);
    InstallWritesAt(m, n);
    ApplyWritesListing(s, ws);
    var i := 3 * k + f;
    assert ws[i] == (Item(n + k), Fields(m[k])[f].0, Fields(m[k])[f].1);
    forall j | i < j < |ws| ensures KeyPath(ws[j].0, ws[j].1) != KeyPath(ws[i].0, ws[i].1) {
      WriteKeysDistinct(m, n, i, j);
    }
    ApplyWritesLast(s, ws, i);
  }

  /** Writing bindings from index `n` on keeps the listed items and every key outside the new items. */
  lemma WrittenKeeps(s: Store, m: seq<Binding>, n: nat)
    ensures forall x :: x in s.listing ==> x in ApplyWrites(s, InstallWrites(m, n)).listing
    ensures forall p :: p in s.values && (forall j :: n <= j < n + |m| ==> !Below(p, Item(j))) ==>
      p in ApplyWrites(s, InstallWrites(m, n)).values && ApplyWrites(s, InstallWrites(m, n)).values[p] == s.values[p]
  {
    var ws := InstallWrites(m, n);
    InstallWritesAt(m, n);
    ApplyWritesListing(s, ws);
    forall p | p in s.values && (forall j :: n <= j < n + |m| ==> !Below(p, Item(j)))
      ensures p in ApplyWrites(s, ws).values && ApplyWrites(s, ws).values[p] == s.values[p]
    {
      forall i | 0 <= i < |ws| ensures KeyPath(ws[i].0, ws[i].1) != p {
        assert Below(KeyPath(ws[i].0, ws[i].1), Item(n + i / 3));
      }
      ApplyWritesUntouched(s, ws, p);
    }
  }

  /** The name stored in an item whose index is below `n` survives writing bindings from `n` on. */
  lemma NameKept(s: Store, m: seq<Binding>, n: nat, x: string)
    requires CustomIndex(x).None? || CustomIndex(x).value < n
    requires KeyPath(x, "name") in s.values
    ensures Read(ApplyWrites(s, InstallWrites(m, n)), x, "name") == Read(s, x, "name")
  {
    var ws := InstallWrites(m, n);
    InstallWritesAt(m, n);
    forall w | 0 <= w < |ws| ensures KeyPath(ws[w].0, ws[w].1) != KeyPath(x, "name") {
      NameNotOverwritten(x, n + w / 3, ws[w].1);
    }
    ApplyWritesUntouched(s, ws, KeyPath(x, "name"));
  }

  /** Every index already listed lies below the first index `main` writes to. */
  lemma InstallAboveExisting(s: Store)
    ensures forall i :: 0 <= i < |s.listing| && CustomIndex(s.listing[i]).Some? ==>
      CustomIndex(s.listing[i]).value < NextIndex(s.listing)
  {
    MaxIndexMeaning(s.listing);
  }

  /** Installing lists the new items `custom{NextIndex + k}/`, one per missing binding. */
  lemma InstallListsNew(s: Store, j: nat)
    requires NextIndex(s.listing) <= j < NextIndex(s.listing) + |Missing(s)|
    ensures Item(j) in Installed(s).listing
  {
    WrittenAt(s, Missing(s), NextIndex(s.listing), j - NextIndex(s.listing), 0);
  }

  /**
   * Installing writes field `f` of the `k`-th missing binding into item
   * `custom{NextIndex + k}/`.
   */
  lemma InstallPlacement(s: Store, k: nat, f: nat)
    requires k < |Missing(s)| && f < 3
    ensures Read(Installed(s), Item(NextIndex(s.listing) + k), Fields(Missing(s)[k])[f].0) == Fields(Missing(s)[k])[f].1
  {
    WrittenAt(s, Missing(s), NextIndex(s.listing), k, f);
  }

  /** Installing keeps the listed items and every key outside the new items. */
  lemma InstallKeeps(s: Store)
    ensures forall x :: x in s.listing ==> x in Installed(s).listing
    ensures forall p :: p in s.values && (forall j :: NextIndex(s.listing) <= j < NextIndex(s.listing) + |Missing(s)| ==> !Below(p, Item(j))) ==>
      p in Installed(s).values && Installed(s).values[p] == s.values[p]
  {
    WrittenKeeps(s, Missing(s), NextIndex(s.listing));
  }

  /** Names of bindings are never the empty text of an unset key. */
  lemma BindingNamesNonEmpty(name: string)
    requires IsBindingName(name)
    ensures name != ""
  {
    var k :| 0 <= k < |Bindings| && Bindings[k].name == name;
    assert k == 0 || k == 1;
  }

  /** After `main`, a binding that was missing is stored in its new item. */
  lemma InstallStoresMissing(s: Store, q: nat)
    requires q < |Missing(s)|
    ensures Missing(s)[q].name in CurrentNames(Installed(s))
  {
    var m := Missing(s);
    var n := NextIndex(s.listing);
    var r := Installed(s);
    WrittenAt(s, m, n, q, 0);
    var j :| 0 <= j < |r.listing| && r.listing[j] == Item(n + q);
    assert CurrentNames(r)[j] == m[q].name;
  }

  /** After `main`, a binding's name that a listed item stored is still stored. */
  lemma InstallKeepsName(s: Store, x: string)
    requires x in s.listing && IsBindingName(Read(s, x, "name"))
    ensures Read(s, x, "name") in CurrentNames(Installed(s))
  {
    var m := Missing(s);
    var n := NextIndex(s.listing);
    var r := Installed(s);
    MaxIndexMeaning(s.listing);
    BindingNamesNonEmpty(Read(s, x, "name"));
    NameKept(s, m, n, x);
    WrittenKeeps(s, m, n);
    var j :| 0 <= j < |r.listing| && r.listing[j] == x;
    assert CurrentNames(r)[j] == Read(s, x, "name");
  }

  /** After `main`, every binding's name is stored by a listed item. */
  lemma InstallStoresName(s: Store, b: Binding)
    requires b in Bindings
    ensures b.name in CurrentNames(Installed(s))
  {
    MissingMeaning(s);
    if b in Missing(s) {
      var q :| 0 <= q < |Missing(s)| && Missing(s)[q] == b;
      InstallStoresMissing(s, q);
    } else {
      var i :| 0 <= i < |s.listing| && Read(s, s.listing[i], "name") == b.name;
      assert IsBindingName(b.name);
      InstallKeepsName(s, s.listing[i]);
    }
  }

  /** After `main`, `is_installed` holds. */
  lemma InstallCompletes(s: Store)
    ensures IsInstalled(Installed(s))
  {
    var names := CurrentNames(Installed(s));
    forall k | 0 <= k < |Bindings| ensures Bindings[k].name in names {
      InstallStoresName(s, Bindings[k]);
    }
    KeepAllNamed(Bindings, names);
  }

  /** `remove(me)` over the `items` handled so far: each is reset when its stored name is a binding's. */
  function RemoveFrom(s: Store, items: seq<string>): Store {
    if items == [] then s
    else
      var t := RemoveFrom(s, items[..|items| - 1]);
      var item := items[|items| - 1];
      if IsBindingName(Read(t, item, "name")) then Reset(t, item) else t
  }

  /** `remove(me)`: every item listed when it starts is handled once. */
  function Removed(s: Store): Store {
    RemoveFrom(s, s.listing)
  }

  /**
   * Removing only takes away: a key that goes is covered by an item whose
   * stored name is a binding's, and so is an item that leaves the listing.
   */
  lemma {:induction false} RemoveOnlyBindings(s: Store, items: seq<string>)
    ensures forall p :: p in RemoveFrom(s, items).values ==> p in s.values && RemoveFrom(s, items).values[p] == s.values[p]
    ensures forall x :: x in RemoveFrom(s, items).listing ==> x in s.listing
    ensures forall p :: p in s.values && p !in RemoveFrom(s, items).values ==>
      exists i :: 0 <= i < |items| && Covers(items[i], p) && IsBindingName(Read(s, items[i], "name"))
    ensures forall x :: x in s.listing && x !in RemoveFrom(s, items).listing ==>
      x in items && IsBindingName(Read(s, x, "name"))
  {
    if items != [] {
      var front := items[..|items| - 1];
      RemoveOnlyBindings(s, front);
      var t := RemoveFrom(s, front);
      var item := items[|items| - 1];
      assert forall i :: 0 <= i < |front| ==> front[i] == items[i];
      if IsBindingName(Read(t, item, "name")) {
        BindingNamesNonEmpty(Read(t, item, "name"));
        assert Read(s, item, "name") == Read(t, item, "name");
      }
    }
  }

  /** The empty text of an unset key is no binding's name. */
  lemma UnsetIsNoBindingName()
    ensures !IsBindingName("")
  {
    forall k | 0 <= k < |Bindings| ensures Bindings[k].name != "" {
      assert k == 0 || k == 1;
    }
  }

  /** After the items are handled, none still listed stores a binding's name. */
  lemma {:induction false} RemoveClears(s: Store, items: seq<string>)
    ensures forall x :: x in items && x in RemoveFrom(s, items).listing ==>
      !IsBindingName(Read(RemoveFrom(s, items), x, "name"))
  {
    if items != [] {
      var front := items[..|items| - 1];
      RemoveClears(s, front);
      var t := RemoveFrom(s, front);
      var item := items[|items| - 1];
      var r := RemoveFrom(s, items);
      UnsetIsNoBindingName();
      assert forall x :: x in r.listing ==> x in t.listing;
      assert forall p :: p in r.values ==> p in t.values && r.values[p] == t.values[p];
      forall x | x in items && x in r.listing
        ensures !IsBindingName(Read(r, x, "name"))
      {
        if x != item {
          assert x in front;
          assert Read(r, x, "name") == Read(t, x, "name") || Read(r, x, "name") == "";
        }
      }
    }
  }

  /** After `remove`, every binding is missing again. */
  lemma RemoveUninstalls(s: Store)
    ensures Missing(Removed(s)) == Bindings
    ensures !IsInstalled(Removed(s))
  {
    var r := Removed(s);
    RemoveOnlyBindings(s, s.listing);
    RemoveClears(s, s.listing);
    var names := CurrentNames(r);
    CurrentNamesMeaning(r);
    forall k | 0 <= k < |Bindings| ensures Bindings[k].name !in names {
      assert IsBindingName(Bindings[k].name);
      forall j | 0 <= j < |r.listing| ensures Read(r, r.listing[j], "name") != Bindings[k].name {
        assert r.listing[j] in s.listing;
      }
    }
    KeepMeaning(Bindings, names);
  }

  /** The dconf database below `PATH/`, which the twig's operations change in place. */
  class Dconf {
    var listing: seq<string>
    var values: map<string, string>

    function State(): Store
      reads this
    {
      Store(listing, values)
    }

    constructor (s: Store)
      ensures State() == s
    {
      listing := s.listing;
      values := s.values;
    }

    /** `dconf.read(me, PATH/{item}{key})` */
    method ReadKey(item: string, key: string) returns (value: string)
      ensures value == Read(State(), item, key)
    {
      var path := KeyPath(item, key);
      value := if path in values then values[path] else "";
    }

    /** `dconf.write(me, PATH/{item}{key}, value)` */
    method WriteKey(item: string, key: string, value: string)
      modifies this
      ensures State() == Write(old(State()), item, key, value)
    {
      if item !in listing {
        listing := listing + [item];
      }
      values := values[KeyPath(item, key) := value];
    }

    /** `dconf.reset(me, PATH/{item})` */
    method ResetItem(item: string)
      modifies this
      ensures State() == Reset(old(State()), item)
    {
      listing := Without(listing, item);
      values := map k | k in values && !Covers(item, k) :: values[k];
    }
  }

  /** `for name, value in binding.items(): dconf.write(me, base/name, value)` */
  method WriteFields(d: Dconf, item: string, fields: seq<(string, string)>)
    modifies d
    ensures d.State() == ApplyWrites(old(d.State()), Writes(item, fields))
  {
    var f := 0;
    while f < |fields|
      invariant 0 <= f <= |fields|
      invariant d.State() == ApplyWrites(old(d.State()), Writes(item, fields[..f]))
    {
      d.WriteKey(item, fields[f].0, fields[f].1);
      assert Writes(item, fields[..f + 1])[..f] == Writes(item, fields[..f]);
      f := f + 1;
    }
    assert fields[..f] == fields;
  }

  /** The loop of `main(me)`: the bindings go to consecutive indices from `first` on. */
  method WriteBindings(d: Dconf, missing: seq<Binding>, first: nat)
    modifies d
    ensures d.State() == ApplyWrites(old(d.State()), InstallWrites(missing, first))
  {
    var next := first;
    var k := 0;
    while k < |missing|
      invariant 0 <= k <= |missing| && next == first + k
      invariant d.State() == ApplyWrites(old(d.State()), InstallWrites(missing[..k], first))
    {
      var item := Item(next);
      var fields := Fields(missing[k]);
      ghost var done := InstallWrites(missing[..k], first);
      WriteFields(d, item, fields);
      assert missing[..k + 1][..k] == missing[..k];
      assert InstallWrites(missing[..k + 1], first) == done + Writes(item, fields);
      ApplyWritesAppend(old(d.State()), done, Writes(item, fields));
      k := k + 1;
      next := next + 1;
    }
    assert missing[..k] == missing;
  }

  /** `main(me)`: each missing binding's keys are written under the next free index. */
  method Install(d: Dconf)
    modifies d
    ensures d.State() == Installed(old(d.State()))
  {
    var missing := Missing(d.State());
    var first := NextIndex(d.listing);
    WriteBindings(d, missing, first);
  }

  /** `remove(me)`: every listed item that stores a binding's name is reset. */
  method Remove(d: Dconf)
    modifies d
    ensures d.State() == Removed(old(d.State()))
  {
    ghost var s := d.State();
    var items := d.listing;
    var k := 0;
    while k < |items|
      invariant 0 <= k <= |items|
      invariant d.State() == RemoveFrom(s, items[..k])
    {
      var name := d.ReadKey(items[k], "name");
      assert items[..k + 1][..k] == items[..k];
      if IsBindingName(name) {
        d.ResetItem(items[k]);
      }
      k := k + 1;
    }
    assert items[..k] == items;
  }
}
