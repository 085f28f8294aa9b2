/**
 * The standalone copy of the user interface that the shell utilities
 * ship (`twigs/shell_utilities/files/.local/lib/python/ui/__init__.py`):
 * a queue of messages that are printed only once another message follows,
 * the word-wrapping printer, and the tree renderer, all without
 * indentation levels or sections.
 */
module ShellUi {
  import opened Text
  import Wrap
  import TreeLayout
  import Ui

  /** No indentation level: the padding of level 0 is empty. */
  lemma NoPadding(s: string)
    ensures Ui.Pad(0) + s == s
  {
    assert Ui.Pad(0) == [];
  }

  class Terminal {
    /** The terminal width. */
    const columns: int
    /** `__QUEUE`: messages waiting for another message. */
    var queue: seq<string>
    /** Every line printed so far. */
    var out: seq<string>

    constructor (columns: int)
      ensures this.columns == columns && queue == [] && out == []
    {
      this.columns := columns;
      queue := [];
      out := [];
    }

    /** `queue(s)`: the message waits at the end of the queue. */
    method Queue(s: string)
      modifies this
      ensures queue == old(queue) + [s] && out == old(out)
    {
      queue := queue + [s];
    }

    /** `log(s)`: the queued messages in order, then the message; the queue is emptied. */
    method Log(s: string)
      modifies this
      ensures out == old(out) + old(queue) + [s]
      ensures queue == []
    {
      var k := 0;
      while k < |queue|
        invariant 0 <= k <= |queue| && queue == old(queue)
        invariant out == old(out) + queue[..k]
      {
        assert queue[..k + 1] == queue[..k] + [queue[k]];
        out := out + [queue[k]];
        k := k + 1;
      }
      assert queue[..k] == queue;
      queue := [];
      out := out + [s];
    }

    /**
     * `log_if_queued(s)`: nothing while the queue is empty; otherwise the
     * queued messages are dropped unprinted and only the message is shown.
     */
    method LogIfQueued(s: string)
      modifies this
      ensures old(queue) == [] ==> out == old(out) && queue == []
      ensures old(queue) != [] ==> out == old(out) + [s] && queue == []
    {
      if queue != [] {
        queue := [];
        Log(s);
      }
    }

    /** `_print(columns, (first, rest), text)`: the text wrapped, straight past the queue. */
    method Print(first: string, rest: string, text: string)
      modifies this
      ensures out == old(out) + Wrap.Lines(columns, true, first, rest, text)
      ensures queue == old(queue)
    {
      var lines := Wrap.WrapText(columns, first, rest, text);
      out := out + lines;
    }

    /**
     * `tree(root, leaves, string)`: the same lines as the main interface
     * draws at level 0, the root logged after whatever was queued.
     */
    method Tree<T>(root: TreeLayout.Node<T>, show: (nat, T) -> string)
      modifies this
      ensures out == old(out) + old(queue) + Ui.TreeLines(columns, 0, TreeLayout.Layout(root), show)
      ensures queue == []
    {
      var rows := TreeLayout.Layout(root);
      Ui.LayoutRows(root);
      Ui.TreeLinesRoot(columns, 0, rows, show);
      NoPadding(show(0, rows[0].item));
      Log(show(0, rows[0].item));
      ShowRows(rows[1..], show);
      AppendAssoc(old(out) + old(queue), [show(0, rows[0].item)], Ui.TreeLines(columns, 0, rows[1..], show));
    }

    /** The rows below the root, each printed wrapped. */
    method ShowRows<T>(rows: seq<TreeLayout.Row<T>>, show: (nat, T) -> string)
      requires forall k :: 0 <= k < |rows| ==> rows[k].level > 0
      modifies this
      ensures out == old(out) + Ui.TreeLines(columns, 0, rows, show)
      ensures queue == old(queue)
    {
      ghost var total := out + Ui.TreeLines(columns, 0, rows, show);
      var k := 0;
      while k < |rows|
        invariant 0 <= k <= |rows| && queue == old(queue)
        invariant out + Ui.TreeLines(columns, 0, rows[k..], show) == total
      {
        ShowRowAt(rows, show, k, total);
        k := k + 1;
      }
      assert rows[k..] == [];
    }

    /** One round of the loop over the rows below the root: the row at `k` printed. */
    method ShowRowAt<T>(rows: seq<TreeLayout.Row<T>>, show: (nat, T) -> string, k: nat, ghost total: seq<string>)
      requires k < |rows| && rows[k].level > 0
      requires out + Ui.TreeLines(columns, 0, rows[k..], show) == total
      modifies this
      ensures out + Ui.TreeLines(columns, 0, rows[k + 1..], show) == total
      ensures queue == old(queue)
    {
      Ui.TreeLinesStep(columns, 0, rows, show, k);
      ghost var before := out;
      ShowRow(rows[k], show);
      AppendAssoc(before, Ui.RowLines(columns, 0, rows[k], show), Ui.TreeLines(columns, 0, rows[k + 1..], show));
    }

    /** One row below the root, printed wrapped under its two indentations. */
    method ShowRow<T>(r: TreeLayout.Row<T>, show: (nat, T) -> string)
      requires r.level > 0
      modifies this
      ensures out == old(out) + Ui.RowLines(columns, 0, r, show)
      ensures queue == old(queue)
    {
      Ui.RowLinesNode(columns, 0, r, show);
      NoPadding(TreeLayout.FirstIndent(r));
      NoPadding(TreeLayout.RestIndent(r));
      Print(TreeLayout.FirstIndent(r), TreeLayout.RestIndent(r), show(r.level, r.item));
    }
  }
}
