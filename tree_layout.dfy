/**
 * The layout `tree` gives a tree of nodes, shared by both user interfaces:
 * the nodes in preorder, each with its level, whether it is the last of its
 * siblings, whether it is a leaf, and the levels of its ancestors that still
 * have siblings to come (the "stops", drawn as `│`).
 *
 * The nodes a `leaves` callback generates are given here as a finite tree.
 */
module TreeLayout {

  datatype Node<T> = Node(item: T, children: seq<Node<T>>)

  /** One call of the inner `display`. */
  datatype Row<T> = Row(level: nat, item: T, last: bool, leaf: bool, stops: seq<nat>)

  /** `display(item, is_last, level, stops)`: the node's row, then its children's. */
  function Display<T>(item: T, children: seq<Node<T>>, isLast: bool, level: nat, stops: seq<nat>): seq<Row<T>>
    decreases children, 1
  {
    [Row(level, item, isLast, children == [], stops)]
      + DisplayChildren(children, level + 1, stops + (if !isLast then [level] else []))
  }

  /** The loop over the children; the last one is marked as such. */
  function DisplayChildren<T>(cs: seq<Node<T>>, level: nat, stops: seq<nat>): seq<Row<T>>
    decreases cs, 0
  {
    if cs == [] then []
    else Display(cs[0].item, cs[0].children, |cs| == 1, level, stops) + DisplayChildren(cs[1..], level, stops)
  }

  /** `tree(root, …)`: the root is displayed as the last node of level 0. */
  function Layout<T>(root: Node<T>): seq<Row<T>> {
    Display(root.item, root.children, true, 0, [])
  }

  function Items<T>(rows: seq<Row<T>>): (r: seq<T>)
    ensures |r| == |rows|
    ensures forall k :: 0 <= k < |rows| ==> r[k] == rows[k].item
  {
    if rows == [] then [] else [rows[0].item] + Items(rows[1..])
  }

  lemma ItemsAppend<T>(a: seq<Row<T>>, b: seq<Row<T>>)
    ensures Items(a + b) == Items(a) + Items(b)
  {
    assert Items(a + b) == Items(a) + Items(b);
  }

  /** Preorder: a node before its children, the children in order. */
  function Preorder<T>(n: Node<T>): seq<T>
    decreases n.children, 1
  {
    [n.item] + PreorderAll(n.children)
  }

  function PreorderAll<T>(cs: seq<Node<T>>): seq<T>
    decreases cs, 0
  {
    if cs == [] then [] else Preorder(cs[0]) + PreorderAll(cs[1..])
  }

  /** The rows a node at `level` below ancestors with `stops` is displayed with. */
  predicate Below<T>(rows: seq<Row<T>>, level: nat, stops: seq<nat>, isLast: bool) {
    forall k :: 0 <= k < |rows| ==>
      rows[k].level > level &&
      (level in rows[k].stops <==> !isLast) &&
      (forall j: nat :: j < level ==> (j in rows[k].stops <==> j in stops))
  }

  /** The rows are at `level` or deeper and agree with `stops` on the levels above. */
  predicate Within<T>(rows: seq<Row<T>>, level: nat, stops: seq<nat>) {
    forall k :: 0 <= k < |rows| ==>
      rows[k].level >= level && (forall j: nat :: j < level ==> (j in rows[k].stops <==> j in stops))
  }

  /** `display` lists the node and then its descendants, in preorder. */
  lemma {:induction false} DisplayItems<T>(item: T, children: seq<Node<T>>, isLast: bool, level: nat, stops: seq<nat>)
    ensures Items(Display(item, children, isLast, level, stops)) == [item] + PreorderAll(children)
    decreases children, 1
  {
    var stops' := stops + (if !isLast then [level] else []);
    ChildrenItems(children, level + 1, stops');
    ItemsAppend([Row(level, item, isLast, children == [], stops)], DisplayChildren(children, level + 1, stops'));
  }

  /** The loop over the children lists them and their descendants, in preorder. */
  lemma {:induction false} ChildrenItems<T>(cs: seq<Node<T>>, level: nat, stops: seq<nat>)
    ensures Items(DisplayChildren(cs, level, stops)) == PreorderAll(cs)
    decreases cs, 0
  {
    if cs != [] {
      DisplayItems(cs[0].item, cs[0].children, |cs| == 1, level, stops);
      ChildrenItems(cs[1..], level, stops);
      ItemsAppend(Display(cs[0].item, cs[0].children, |cs| == 1, level, stops), DisplayChildren(cs[1..], level, stops));
    }
  }

  /**
   * The first row of `display` is the node's own; every later row is
   * deeper, and its stops are the node's stops plus the node's own level
   * exactly when the node is not last.
   */
  lemma {:induction false} DisplayShape<T>(item: T, children: seq<Node<T>>, isLast: bool, level: nat, stops: seq<nat>)
    requires forall j :: j in stops ==> j < level
    ensures var rows := Display(item, children, isLast, level, stops);
      rows[0] == Row(level, item, isLast, children == [], stops) &&
      Below(rows[1..], level, stops, isLast)
    decreases children, 1
  {
    var stops' := stops + (if !isLast then [level] else []);
    var rest := DisplayChildren(children, level + 1, stops');
    ChildrenShape(children, level + 1, stops');
    assert Display(item, children, isLast, level, stops)[1..] == rest;
    forall k | 0 <= k < |rest|
      ensures rest[k].level > level
      ensures level in rest[k].stops <==> !isLast
      ensures forall j :: j < level ==> (j in rest[k].stops <==> j in stops)
    {
      assert forall j: nat :: j < level + 1 ==> (j in rest[k].stops <==> j in stops');
    }
  }

  /** The rows of a run of siblings at `level` are never above it and keep the ancestors' stops. */
  lemma {:induction false} ChildrenShape<T>(cs: seq<Node<T>>, level: nat, stops: seq<nat>)
    requires forall j :: j in stops ==> j < level
    ensures Within(DisplayChildren(cs, level, stops), level, stops)
    decreases cs, 0
  {
    if cs != [] {
      var head := Display(cs[0].item, cs[0].children, |cs| == 1, level, stops);
      var tail := DisplayChildren(cs[1..], level, stops);
      DisplayShape(cs[0].item, cs[0].children, |cs| == 1, level, stops);
      ChildrenShape(cs[1..], level, stops);
      var rows := head + tail;
      forall k | 0 <= k < |rows|
        ensures rows[k].level >= level
        ensures forall j :: j < level ==> (j in rows[k].stops <==> j in stops)
      {
        if 0 < k < |head| {
          assert rows[k] == head[1..][k - 1];
        } else if k >= |head| {
          assert rows[k] == tail[k - |head|];
        }
      }
    }
  }

  /**
   * The whole layout: the nodes in preorder, the root alone at level 0, and
   * level 0 never among the stops, since the root counts as last.
   */
  lemma LayoutShape<T>(root: Node<T>)
    ensures var rows := Layout(root);
      Items(rows) == Preorder(root) &&
      rows[0].level == 0 &&
      forall k :: 0 < k < |rows| ==> rows[k].level > 0 && 0 !in rows[k].stops
  {
    DisplayItems(root.item, root.children, true, 0, []);
    DisplayShape(root.item, root.children, true, 0, []);
  }

  // ---------------------------------------------------------------------
  // Siblings

  /** The rows of one level, in order. */
  function AtLevel<T>(rows: seq<Row<T>>, level: nat): (r: seq<Row<T>>)
    ensures forall x :: x in r ==> x in rows && x.level == level
  {
    if rows == [] then []
    else (if rows[0].level == level then [rows[0]] else []) + AtLevel(rows[1..], level)
  }

  lemma {:induction false} AtLevelAppend<T>(a: seq<Row<T>>, b: seq<Row<T>>, level: nat)
    ensures AtLevel(a + b, level) == AtLevel(a, level) + AtLevel(b, level)
  {
    if a == [] {
      assert a + b == b;
    } else {
      assert (a + b)[0] == a[0];
      assert (a + b)[1..] == a[1..] + b;
      AtLevelAppend(a[1..], b, level);
    }
  }

  lemma AtLevelDeeper<T>(rows: seq<Row<T>>, level: nat)
    requires forall k :: 0 <= k < |rows| ==> rows[k].level > level
    ensures AtLevel(rows, level) == []
  {
  }

  /** Of the rows `display` gives a node, only the node's own is at its level. */
  lemma HeadAtLevel<T>(item: T, children: seq<Node<T>>, isLast: bool, level: nat, stops: seq<nat>)
    requires forall j :: j in stops ==> j < level
    ensures AtLevel(Display(item, children, isLast, level, stops), level) == [Row(level, item, isLast, children == [], stops)]
  {
    var head := Display(item, children, isLast, level, stops);
    DisplayShape(item, children, isLast, level, stops);
    assert head == [head[0]] + head[1..];
    AtLevelAppend([head[0]], head[1..], level);
    AtLevelDeeper(head[1..], level);
  }

  /**
   * Among the rows of a run of siblings, those at the siblings' level are
   * the siblings themselves, in order, and only the last is marked last;
   * a sibling is marked as a leaf iff it has no children.
   */
  lemma {:induction false} SiblingRows<T>(cs: seq<Node<T>>, level: nat, stops: seq<nat>)
    requires forall j :: j in stops ==> j < level
    ensures var sib := AtLevel(DisplayChildren(cs, level, stops), level);
      |sib| == |cs| &&
      forall k :: 0 <= k < |cs| ==>
        sib[k].item == cs[k].item && (sib[k].last <==> k == |cs| - 1) && (sib[k].leaf <==> cs[k].children == [])
    decreases |cs|
  {
    if cs != [] {
      var head := Display(cs[0].item, cs[0].children, |cs| == 1, level, stops);
      var tail := DisplayChildren(cs[1..], level, stops);
      HeadAtLevel(cs[0].item, cs[0].children, |cs| == 1, level, stops);
      SiblingRows(cs[1..], level, stops);
      AtLevelAppend(head, tail, level);
      var rest := AtLevel(tail, level);
      var sib := AtLevel(DisplayChildren(cs, level, stops), level);
      assert sib == [Row(level, cs[0].item, |cs| == 1, cs[0].children == [], stops)] + rest;
      forall k | 0 < k < |cs|
        ensures sib[k].item == cs[k].item && (sib[k].last <==> k == |cs| - 1)
        ensures sib[k].leaf <==> cs[k].children == []
      {
        assert sib[k] == rest[k - 1];
        assert cs[1..][k - 1] == cs[k];
      }
    }
  }

  // ---------------------------------------------------------------------
  // Indentation

  /** One column of the prefix: `│ ` below an ancestor with siblings to come. */
  function Column(stops: seq<nat>, i: nat): string {
    if i in stops then "│ " else "  "
  }

  /** `''.join(… for i in range(lo, hi))` */
  function Columns(stops: seq<nat>, lo: nat, hi: nat): (r: string)
    ensures lo <= hi ==> |r| == 2 * (hi - lo)
    decreases hi - lo
  {
    if lo >= hi then "" else Column(stops, lo) + Columns(stops, lo + 1, hi)
  }

  function Connector(last: bool): string {
    if !last then "├─" else "└─"
  }

  function Knob(leaf: bool): string {
    if leaf then "╼" else "┮"
  }

  /** `indentation[0]`: the prefix of a row's first line. */
  function FirstIndent<T>(r: Row<T>): string
    requires r.level > 0
  {
    (Columns(r.stops, 0, r.level) + Connector(r.last) + Knob(r.leaf))[2..]
  }

  /** `indentation[1]`: the prefix of a row's later lines. */
  function RestIndent<T>(r: Row<T>): string
    requires r.level > 0
  {
    (Columns(r.stops, 0, r.level) + (if !r.last then "│ " else "  ") + " ")[2..]
  }

  /**
   * The `[2:]` slice drops exactly the column of level 0, which is blank;
   * both indentations are equally wide, so wrapped text stays aligned
   * under the text of the first line.
   */
  lemma Indents<T>(r: Row<T>)
    requires r.level > 0 && 0 !in r.stops
    ensures Columns(r.stops, 0, r.level) == "  " + Columns(r.stops, 1, r.level)
    ensures FirstIndent(r) == Columns(r.stops, 1, r.level) + Connector(r.last) + Knob(r.leaf)
    ensures RestIndent(r) == Columns(r.stops, 1, r.level) + (if !r.last then "│ " else "  ") + " "
    ensures |FirstIndent(r)| == |RestIndent(r)| == 2 * r.level + 1
  {
    var cols := Columns(r.stops, 1, r.level);
    assert Columns(r.stops, 0, r.level) == "  " + cols;
    assert ("  " + cols + Connector(r.last) + Knob(r.leaf))[2..] == cols + Connector(r.last) + Knob(r.leaf);
    assert ("  " + cols + (if !r.last then "│ " else "  ") + " ")[2..] == cols + (if !r.last then "│ " else "  ") + " ";
  }

  /** Column `i` of the prefix shows `│` exactly for the levels in the stops. */
  lemma ColumnsAt(stops: seq<nat>, lo: nat, hi: nat, i: nat)
    requires lo <= i < hi
    ensures Columns(stops, lo, hi)[2 * (i - lo)] == (if i in stops then '│' else ' ')
    decreases hi - lo
  {
    if i > lo {
      ColumnsAt(stops, lo + 1, hi, i);
      assert Columns(stops, lo, hi)[2 * (i - lo)] == Columns(stops, lo + 1, hi)[2 * (i - lo - 1)];
    }
  }
}
