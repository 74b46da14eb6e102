/** The mathematical side of the intrusive red-black tree of src/lib/wepoll.c.

    A `Shape` is the tree a heap of linked nodes stands for; a `Path` is such a tree with a
    hole, read from the hole up to the root.  Everything in this file is about these values;
    RedBlackTree.dfy ties them to the pointers. */
module RedBlackShape {

  /** tree_node_t */
  class TreeNode {
    var left: TreeNode?
    var right: TreeNode?
    var parent: TreeNode?
    var key: nat
    var red: bool

    /** tree_node_init */
    constructor ()
      ensures left == null && right == null && parent == null && key == 0 && !red
    {
      left, right, parent, key, red := null, null, null, 0, false;
    }
  }

  datatype Side = Left | Right {
    function Flip(): Side { if this == Left then Right else Left }
  }

  datatype Shape =
    | Leaf
    | Node(left: Shape, node: TreeNode, key: nat, red: bool, right: Shape)
  {
    ghost function Kid(s: Side): Shape
      requires Node?
    {
      if s == Left then left else right
    }

    ghost function Ptr(): TreeNode? { if Leaf? then null else node }

    ghost predicate Black() { Node? ==> !red }

    ghost function Nodes(): set<TreeNode> {
      if Leaf? then {} else left.Nodes() + {node} + right.Nodes()
    }

    /** No node occurs twice. */
    ghost predicate Separate() {
      Node? ==>
        && node !in left.Nodes() && node !in right.Nodes() && left.Nodes() !! right.Nodes()
        && left.Separate() && right.Separate()
    }

    ghost function InOrder(): seq<Entry> {
      if Leaf? then [] else left.InOrder() + [Entry(key, node)] + right.InOrder()
    }

    /** No red node has a red child, and every way down meets `h` black nodes. */
    ghost predicate IsRB(h: nat) {
      if Leaf? then h == 0
      else if red then left.Black() && right.Black() && left.IsRB(h) && right.IsRB(h)
      else h >= 1 && left.IsRB(h - 1) && right.IsRB(h - 1)
    }

    /** What the fields of node `n` of this tree hold when the tree hangs under `above`. */
    ghost function CellAt(n: TreeNode, above: TreeNode?): Cell
      requires n in Nodes()
    {
      if n == node then Cell(left.Ptr(), right.Ptr(), above, key, red)
      else if n in left.Nodes() then left.CellAt(n, node)
      else right.CellAt(n, node)
    }

    /** The same for a whole tree. */
    ghost function FieldsOf(n: TreeNode): Cell
      requires n in Nodes()
    {
      CellAt(n, null)
    }

    ghost function Height(): nat {
      if Leaf? then 0
      else 1 + (if left.Height() > right.Height() then left.Height() else right.Height())
    }
  }

  datatype Entry = Entry(key: nat, node: TreeNode)

  /** The contents of one tree_node_t. */
  datatype Cell = Cell(left: TreeNode?, right: TreeNode?, parent: TreeNode?, key: nat, red: bool) {
    ghost function WithChild(s: Side, child: TreeNode?): Cell {
      if s == Left then this.(left := child) else this.(right := child)
    }
  }

  /** The tree whose `s` child is `cis` and whose other child is `trans`. */
  ghost function Mk(s: Side, cis: Shape, node: TreeNode, key: nat, red: bool, trans: Shape): Shape {
    if s == Left then Node(cis, node, key, red, trans) else Node(trans, node, key, red, cis)
  }

  /** A tree with a hole: the hole is the `side` child of `node`, whose other child is `other`. */
  datatype Path =
    | Top
    | Down(up: Path, side: Side, node: TreeNode, key: nat, red: bool, other: Shape)
  {
    ghost function Plug(t: Shape): (r: Shape)
      ensures t.Node? || Down? ==> r.Node?
    {
      if Top? then t else up.Plug(Mk(side, t, node, key, red, other))
    }

    /** The pointer to the node above the hole. */
    ghost function Above(): TreeNode? { if Top? then null else node }

    /** What the root pointer holds when the hole holds `hole`. */
    ghost function Root(hole: TreeNode?): TreeNode? { if Top? then hole else up.Root(node) }

    /** What the fields of node `n` of this path hold when the hole holds `hole`. */
    ghost function CellAt(n: TreeNode, hole: TreeNode?): Cell
      requires n in Nodes()
    {
      if n == node then Cell(other.Ptr(), other.Ptr(), up.Above(), key, red).WithChild(side, hole)
      else if n in other.Nodes() then other.CellAt(n, node)
      else up.CellAt(n, node)
    }

    ghost predicate BlackAbove() { Down? && !red }

    ghost predicate Black() { Down? ==> !red }

    ghost function Nodes(): set<TreeNode> {
      if Top? then {} else up.Nodes() + {node} + other.Nodes()
    }

    ghost predicate Separate() {
      Down? ==>
        && node !in other.Nodes() && node !in up.Nodes() && other.Nodes() !! up.Nodes()
        && other.Separate() && up.Separate()
    }

    /** The entries to the left and to the right of the hole. */
    ghost function Before(): seq<Entry> {
      if Top? then []
      else if side == Left then up.Before()
      else up.Before() + (other.InOrder() + [Entry(key, node)])
    }

    ghost function After(): seq<Entry> {
      if Top? then []
      else if side == Right then up.After()
      else [Entry(key, node)] + other.InOrder() + up.After()
    }

    /** Filling the hole with a tree of black height `h` (red only below a black node) gives a
        red-black tree with a black root. */
    ghost predicate IsRB(h: nat) {
      Down? ==>
        && other.IsRB(h)
        && (red ==> other.Black() && up.BlackAbove())
        && up.IsRB(if red then h else h + 1)
    }

    ghost function Length(): nat { if Top? then 0 else 1 + up.Length() }

    /** This path continued upwards by `outer`. */
    ghost function Then(outer: Path): Path {
      if Top? then outer else Down(up.Then(outer), side, node, key, red, other)
    }

    ghost predicate LeftSpine() { Down? ==> side == Left && up.LeftSpine() }
  }

  /** Both children of a node can be taken for the focus. */
  lemma {:induction false} Focusing(up: Path, s: Side, cis: Shape, node: TreeNode, key: nat, red: bool, trans: Shape)
    ensures Down(up, s, node, key, red, trans).Plug(cis) == up.Plug(Mk(s, cis, node, key, red, trans))
    ensures Down(up, s.Flip(), node, key, red, cis).Plug(trans) == up.Plug(Mk(s, cis, node, key, red, trans))
  {
  }

  /** TREE__ROTATE(cis, trans) on values. */
  ghost function Rotated(cis: Side, t: Shape): Shape
    requires t.Node? && t.Kid(cis.Flip()).Node?
  {
    var q := t.Kid(cis.Flip());
    Mk(cis, Mk(cis, t.Kid(cis), t.node, t.key, t.red, q.Kid(cis)), q.node, q.key, q.red, q.Kid(cis.Flip()))
  }

  /** Rotating the child on side `s` up. */
  lemma {:induction false} RotatedUp(s: Side, a: Shape, p: TreeNode, pk: nat, pr: bool, b: Shape, g: TreeNode, gk: nat,
                                     gr: bool, c: Shape)
    ensures var t := Mk(s, Mk(s, a, p, pk, pr, b), g, gk, gr, c);
      && t.Node? && t.node == g && t.Kid(s.Flip().Flip()).Node?
      && Rotated(s.Flip(), t) == Mk(s, a, p, pk, pr, Mk(s, b, g, gk, gr, c))
  {
  }

  // ---- order and contents ------------------------------------------------------------------

  ghost predicate Sorted(s: seq<Entry>) {
    forall i, j :: 0 <= i < j < |s| ==> s[i].key < s[j].key
  }

  /** The key-to-node map a sorted entry list stands for. */
  ghost function MapOf(s: seq<Entry>): map<nat, TreeNode>
    requires Sorted(s)
  {
    map e | e in s :: e.key := e.node
  }

  lemma {:induction false} SortedWithout(a: seq<Entry>, e: Entry, b: seq<Entry>)
    requires Sorted(a + [e] + b)
    ensures Sorted(a + b)
    ensures forall x :: x in a + b ==> x.key != e.key
  {
    var s, r := a + [e] + b, a + b;
    assert s[|a|] == e;
    assert forall i :: 0 <= i < |a| ==> r[i] == s[i];
    assert forall i :: |a| <= i < |r| ==> r[i] == s[i + 1];
  }

  lemma {:induction false} SortedWith(a: seq<Entry>, e: Entry, b: seq<Entry>)
    requires Sorted(a + b)
    requires forall x :: x in a ==> x.key < e.key
    requires forall x :: x in b ==> e.key < x.key
    ensures Sorted(a + [e] + b)
  {
    var s, r := a + [e] + b, a + b;
    assert s[|a|] == e;
    assert forall i :: 0 <= i < |a| ==> s[i] == r[i] && s[i] in a;
    assert forall i :: |a| < i < |s| ==> s[i] == r[i - 1] && s[i] in b;
  }

  lemma {:induction false} MapOfSize(s: seq<Entry>)
    requires Sorted(s)
    ensures |MapOf(s)| == |s|
  {
    if s != [] {
      var a, e := s[..|s| - 1], s[|s| - 1];
      assert s == a + [e] + [] && a == a + [];
      MapOfSize(a);
      MapOfInsert(a, e, []);
    }
  }

  /** Inserting an entry in the middle of a list extends its map by exactly that entry. */
  lemma {:induction false} MapOfInsert(a: seq<Entry>, e: Entry, b: seq<Entry>)
    requires Sorted(a + [e] + b)
    ensures Sorted(a + b)
    ensures e.key !in MapOf(a + b)
    ensures MapOf(a + [e] + b) == MapOf(a + b)[e.key := e.node]
  {
    SortedWithout(a, e, b);
    MapOfAdd(a + [e] + b, e, a + b);
  }

  lemma {:induction false} MapOfAdd(s: seq<Entry>, e: Entry, r: seq<Entry>)
    requires Sorted(s) && Sorted(r)
    requires forall x :: x in s <==> x == e || x in r
    requires forall x :: x in r ==> x.key != e.key
    ensures e.key !in MapOf(r)
    ensures MapOf(s) == MapOf(r)[e.key := e.node]
  {
  }

  lemma {:induction false} PlugInOrder(p: Path, t: Shape)
    ensures p.Plug(t).InOrder() == p.Before() + t.InOrder() + p.After()
  {
    if p.Down? {
      var a, b, e, o := p.up.Before(), p.up.After(), Entry(p.key, p.node), p.other.InOrder();
      PlugInOrder(p.up, Mk(p.side, t, p.node, p.key, p.red, p.other));
      if p.side == Left {
        HungLeft(a, t.InOrder(), e, o, b);
      } else {
        HungRight(a, o, e, t.InOrder(), b);
      }
    }
  }

  lemma {:induction false} HungLeft(a: seq<Entry>, x: seq<Entry>, e: Entry, o: seq<Entry>, b: seq<Entry>)
    ensures a + (x + [e] + o) + b == a + x + ([e] + o + b)
  {
  }

  lemma {:induction false} HungRight(a: seq<Entry>, o: seq<Entry>, e: Entry, x: seq<Entry>, b: seq<Entry>)
    ensures a + (o + [e] + x) + b == (a + o + [e]) + x + b
  {
  }

  lemma {:induction false} RotatedInOrder(cis: Side, t: Shape)
    requires t.Node? && t.Kid(cis.Flip()).Node?
    ensures Rotated(cis, t).InOrder() == t.InOrder()
    ensures Rotated(cis, t).Nodes() == t.Nodes()
    ensures Rotated(cis, t).Separate() == t.Separate()
  {
  }

  /** `key` belongs into the hole of `p`. */
  ghost predicate Between(p: Path, key: nat) {
    && (forall e :: e in p.Before() ==> e.key < key)
    && (forall e :: e in p.After() ==> key < e.key)
  }

  lemma {:induction false} SortedNode(s: seq<Entry>, a: seq<Entry>, l: seq<Entry>, e: Entry, r: seq<Entry>,
                                      b: seq<Entry>)
    requires s == a + (l + [e] + r) + b && Sorted(s)
    ensures forall x :: x in l ==> x.key < e.key
    ensures forall x :: x in r ==> e.key < x.key
  {
    var k := |a| + |l|;
    assert s[k] == e;
    assert forall i :: 0 <= i < |l| ==> s[|a| + i] == l[i];
    assert forall i :: 0 <= i < |r| ==> s[k + 1 + i] == r[i];
  }

  /** One step down a search tree: the key asked for stays between its neighbours. */
  lemma {:induction false} Descend(p: Path, t: Shape, key: nat)
    requires Sorted(p.Plug(t).InOrder()) && t.Node? && Between(p, key)
    ensures key < t.key ==> Between(Down(p, Left, t.node, t.key, t.red, t.right), key)
    ensures t.key < key ==> Between(Down(p, Right, t.node, t.key, t.red, t.left), key)
  {
    PlugInOrder(p, t);
    SortedNode(p.Plug(t).InOrder(), p.Before(), t.left.InOrder(), Entry(t.key, t.node), t.right.InOrder(), p.After());
  }

  /** A key that belongs into the hole of a plugged path is in the plugged tree or nowhere. */
  lemma {:induction false} SearchEnds(p: Path, t: Shape, key: nat)
    requires Sorted(p.Plug(t).InOrder()) && Between(p, key)
    ensures t.Leaf? ==> key !in MapOf(p.Plug(t).InOrder())
    ensures t.Node? && t.key == key ==>
      key in MapOf(p.Plug(t).InOrder()) && MapOf(p.Plug(t).InOrder())[key] == t.node
  {
    PlugInOrder(p, t);
    var s := p.Plug(t).InOrder();
    if t.Leaf? {
      assert forall e :: e in s ==> e in p.Before() || e in p.After();
    } else if t.key == key {
      Regrouped(p.Before(), t.left.InOrder(), Entry(key, t.node), t.right.InOrder(), p.After());
      MapOfEntry(s, p.Before() + t.left.InOrder(), Entry(key, t.node), t.right.InOrder() + p.After());
    }
  }

  lemma {:induction false} MapOfEntry(s: seq<Entry>, a: seq<Entry>, e: Entry, b: seq<Entry>)
    requires Sorted(s) && s == a + [e] + b
    ensures e.key in MapOf(s) && MapOf(s)[e.key] == e.node
  {
    assert s[|a|] == e;
  }

  /** Filling the empty hole a key belongs into extends the map by that key. */
  lemma {:induction false} AttachedMap(p: Path, node: TreeNode, key: nat)
    requires Sorted(p.Plug(Leaf).InOrder()) && Between(p, key)
    ensures var r := p.Plug(Node(Leaf, node, key, true, Leaf)).InOrder();
      Sorted(r) && MapOf(r) == MapOf(p.Plug(Leaf).InOrder())[key := node]
  {
    var e, t := Entry(key, node), Node(Leaf, node, key, true, Leaf);
    PlugInOrder(p, Leaf);
    PlugInOrder(p, t);
    assert t.InOrder() == [e];
    InsertSorted(p.Before(), e, p.After(), p.Plug(Leaf).InOrder(), p.Plug(t).InOrder());
  }

  lemma {:induction false} InsertSorted(a: seq<Entry>, e: Entry, b: seq<Entry>, s: seq<Entry>, r: seq<Entry>)
    requires s == a + [] + b && r == a + [e] + b && Sorted(s)
    requires (forall x :: x in a ==> x.key < e.key) && (forall x :: x in b ==> e.key < x.key)
    ensures Sorted(r) && MapOf(r) == MapOf(s)[e.key := e.node]
  {
    assert s == a + b;
    SortedWith(a, e, b);
    MapOfInsert(a, e, b);
  }

  // ---- plugging ----------------------------------------------------------------------------

  lemma {:induction false} PlugNodes(p: Path, t: Shape)
    ensures p.Plug(t).Nodes() == p.Nodes() + t.Nodes()
    ensures p.Plug(t).Separate() <==> p.Separate() && t.Separate() && p.Nodes() !! t.Nodes()
  {
    if p.Down? {
      PlugNodes(p.up, Mk(p.side, t, p.node, p.key, p.red, p.other));
    }
  }

  lemma {:induction false} PlugRoot(p: Path, t: Shape)
    ensures p.Plug(t).Ptr() == p.Root(t.Ptr())
  {
    if p.Down? {
      PlugRoot(p.up, Mk(p.side, t, p.node, p.key, p.red, p.other));
    }
  }

  lemma {:induction false} RootHole(spine: Path, hole: TreeNode?, newHole: TreeNode?)
    requires spine.Down?
    ensures spine.Root(hole) == spine.Root(newHole)
  {
  }

  /** Below the root the content of the hole does not show in the root pointer. */
  lemma {:induction false} SameRoot(p: Path, t: Shape, r: Shape)
    ensures p.Plug(r).Ptr() == if p.Top? then r.Ptr() else p.Plug(t).Ptr()
  {
    PlugRoot(p, t);
    PlugRoot(p, r);
    if p.Down? { RootHole(p, t.Ptr(), r.Ptr()); }
  }

  /** Each node belongs either to the path or to the plugged tree, and so do its fields. */
  lemma {:induction false} PlugCells(p: Path, t: Shape, n: TreeNode)
    requires p.Plug(t).Separate() && n in p.Plug(t).Nodes()
    ensures n in t.Nodes() || n in p.Nodes()
    ensures n in t.Nodes() ==> p.Plug(t).FieldsOf(n) == t.CellAt(n, p.Above())
    ensures n !in t.Nodes() ==> p.Plug(t).FieldsOf(n) == p.CellAt(n, t.Ptr())
  {
    PlugNodes(p, t);
    if p.Down? {
      var f := Mk(p.side, t, p.node, p.key, p.red, p.other);
      PlugNodes(p.up, f);
      PlugCells(p.up, f, n);
    }
  }

  /** Rehanging a tree changes the parent field of its top node and nothing else. */
  lemma {:induction false} RehungCells(t: Shape, n: TreeNode, above: TreeNode?, newAbove: TreeNode?)
    requires n in t.Nodes()
    ensures t.CellAt(n, newAbove) == if n == t.node then t.CellAt(n, above).(parent := newAbove) else t.CellAt(n, above)
  {
  }

  /** Filling the hole differently changes the child field of the node above and nothing else. */
  lemma {:induction false} RefilledCells(p: Path, n: TreeNode, hole: TreeNode?, newHole: TreeNode?)
    requires n in p.Nodes()
    ensures p.CellAt(n, newHole) ==
            if n == p.node then p.CellAt(n, hole).WithChild(p.side, newHole) else p.CellAt(n, hole)
  {
  }

  /** The field updates of TREE__ROTATE, node by node. */
  lemma {:induction false} RotatedCells(cis: Side, path: Path, t: Shape, n: TreeNode)
    requires t.Node? && t.Kid(cis.Flip()).Node?
    requires path.Plug(t).Separate() && n in path.Plug(t).Nodes()
    ensures var r := Rotated(cis, t);
      var p, q, b := t.node, t.Kid(cis.Flip()).node, t.Kid(cis.Flip()).Kid(cis).Ptr();
      var was := path.Plug(t).FieldsOf(n);
      && path.Plug(r).Separate() && path.Plug(r).Nodes() == path.Plug(t).Nodes()
      && path.Plug(r).FieldsOf(n) ==
        if n == p then was.WithChild(cis.Flip(), b).(parent := q)
        else if n == q then was.WithChild(cis, p).(parent := path.Above())
        else if n == b then was.(parent := p)
        else if path.Down? && n == path.node then was.WithChild(path.side, q)
        else was
  {
    var r := Rotated(cis, t);
    PlugNodes(path, t);
    RotatedInOrder(cis, t);
    Rearranged(path, t, r);
    PlugCells(path, t, n);
    PlugCells(path, r, n);
    if n in t.Nodes() {
      RotatedCellsInside(cis, t, n, path.Above());
    } else {
      RefilledCells(path, n, t.Ptr(), r.Ptr());
    }
  }

  lemma {:induction false} RotatedCellsInside(cis: Side, t: Shape, n: TreeNode, above: TreeNode?)
    requires t.Node? && t.Kid(cis.Flip()).Node? && t.Separate() && n in t.Nodes()
    ensures var r := Rotated(cis, t);
      var p, q, b := t.node, t.Kid(cis.Flip()).node, t.Kid(cis.Flip()).Kid(cis);
      var was := t.CellAt(n, above);
      && n in r.Nodes()
      && r.CellAt(n, above) ==
        if n == p then was.WithChild(cis.Flip(), b.Ptr()).(parent := q)
        else if n == q then was.WithChild(cis, p).(parent := above)
        else if n == b.Ptr() then was.(parent := p)
        else was
  {
    var b := t.Kid(cis.Flip()).Kid(cis);
    if n in b.Nodes() {
      RehungCells(b, n, t.Kid(cis.Flip()).node, t.node);
    }
  }

  /** An assignment to the colour of the focus, node by node. */
  lemma {:induction false} PaintedCells(path: Path, t: Shape, red: bool, n: TreeNode)
    requires t.Node? && path.Plug(t).Separate() && n in path.Plug(t).Nodes()
    ensures var r := path.Plug(t.(red := red));
      var was := path.Plug(t).FieldsOf(n);
      && r.Separate() && r.Nodes() == path.Plug(t).Nodes()
      && r.FieldsOf(n) == if n == t.node then was.(red := red) else was
  {
    var r := t.(red := red);
    PlugNodes(path, t);
    Rearranged(path, t, r);
    PlugCells(path, t, n);
    PlugCells(path, r, n);
  }

  /** Hanging a new red node into an empty hole, node by node. */
  lemma {:induction false} AttachedCells(path: Path, node: TreeNode, key: nat, n: TreeNode)
    requires path.Plug(Leaf).Separate() && node !in path.Plug(Leaf).Nodes()
    requires n == node || n in path.Plug(Leaf).Nodes()
    ensures var r := path.Plug(Node(Leaf, node, key, true, Leaf));
      && r.Separate() && r.Nodes() == path.Plug(Leaf).Nodes() + {node}
      && r.FieldsOf(n) ==
        if n == node then Cell(null, null, path.Above(), key, true)
        else if path.Down? && n == path.node then path.Plug(Leaf).FieldsOf(n).WithChild(path.side, node)
        else path.Plug(Leaf).FieldsOf(n)
  {
    var t := Node(Leaf, node, key, true, Leaf);
    PlugNodes(path, Leaf);
    PlugNodes(path, t);
    PlugCells(path, t, n);
    if n != node {
      PlugCells(path, Leaf, n);
      RefilledCells(path, n, null, node);
    }
  }

  // ---- taking a node out -------------------------------------------------------------------

  /** What is left in the fields of node `n` that held `was` once `child` fills the hole. */
  ghost function BypassedCell(path: Path, child: TreeNode?, n: TreeNode, was: Cell): Cell {
    if n == child then was.(parent := path.Above())
    else if path.Down? && n == path.node then was.WithChild(path.side, child)
    else was
  }

  /** A node with at most one child `c` is replaced by that child, node by node. */
  lemma {:induction false} BypassedCells(path: Path, t: Shape, c: Shape, n: TreeNode)
    requires t.Node? && path.Plug(t).Separate()
    requires (t.left == Leaf && c == t.right) || (t.right == Leaf && c == t.left)
    ensures path.Plug(c).Separate() && path.Plug(c).Nodes() == path.Plug(t).Nodes() - {t.node}
    ensures n in path.Plug(c).Nodes() ==>
      path.Plug(c).FieldsOf(n) == BypassedCell(path, c.Ptr(), n, path.Plug(t).FieldsOf(n))
  {
    PlugNodes(path, t);
    PlugNodes(path, c);
    if n in path.Plug(c).Nodes() {
      PlugCells(path, t, n);
      PlugCells(path, c, n);
      if n in c.Nodes() {
        RehungCells(c, n, t.node, path.Above());
      } else {
        RefilledCells(path, n, t.node, c.Ptr());
      }
    }
  }

  lemma {:induction false} ThenNodes(p: Path, outer: Path)
    ensures p.Then(outer).Nodes() == p.Nodes() + outer.Nodes()
    ensures p.Then(outer).Separate() <==> p.Separate() && outer.Separate() && p.Nodes() !! outer.Nodes()
  {
    if p.Down? {
      ThenNodes(p.up, outer);
    }
  }

  /** Another node `m` takes the place of the path node `f.node`: the fields of the other nodes. */
  lemma {:induction false} RenamedCells(spine: Path, f: Path, m: TreeNode, mk: nat, n: TreeNode, hole: TreeNode?)
    requires f.Down? && spine.Then(f).Separate() && m !in spine.Then(f).Nodes()
    requires n in spine.Then(f).Nodes() && n != f.node
    ensures var g := f.(node := m, key := mk);
      var was := spine.Then(f).CellAt(n, hole);
      && n in spine.Then(g).Nodes()
      && spine.Then(g).CellAt(n, hole) ==
        if n == f.other.Ptr() then was.(parent := m)
        else if f.up.Down? && n == f.up.node then was.WithChild(f.up.side, m)
        else if spine.Down? && n == spine.Root(hole) then was.(parent := m)
        else was
  {
    var g := f.(node := m, key := mk);
    ThenNodes(spine, f);
    ThenNodes(spine, g);
    if spine.Top? {
      if n in f.other.Nodes() {
        RehungCells(f.other, n, f.node, m);
      } else {
        RefilledCells(f.up, n, f.node, m);
      }
    } else if n != spine.node && n !in spine.other.Nodes() {
      ThenNodes(spine.up, f);
      ThenNodes(spine.up, g);
      RenamedCells(spine.up, f, m, mk, n, spine.node);
    } else {
      SpineRoot(spine, hole, n);
    }
  }

  /** The topmost node of a path is on the path, not in one of its side trees. */
  lemma {:induction false} SpineRoot(spine: Path, hole: TreeNode?, n: TreeNode)
    requires spine.Down? && spine.Separate()
    requires n == spine.node || n in spine.other.Nodes()
    ensures spine.Root(hole) in spine.Nodes()
    ensures n == spine.Root(hole) <==> n == spine.node && spine.up.Top?
  {
    if spine.up.Down? {
      RootInside(spine.up, spine.node);
    }
  }

  lemma {:induction false} RootInside(spine: Path, hole: TreeNode?)
    requires spine.Down?
    ensures spine.Root(hole) in spine.Nodes()
  {
    if spine.up.Down? {
      RootInside(spine.up, spine.node);
    }
  }

  /** The fields of the node that took the place of `f.node`. */
  lemma {:induction false} RenamedNode(spine: Path, f: Path, hole: TreeNode?)
    requires f.Down? && spine.Then(f).Separate()
    ensures f.node in spine.Then(f).Nodes()
    ensures spine.Then(f).CellAt(f.node, hole) ==
      Cell(f.other.Ptr(), f.other.Ptr(), f.up.Above(), f.key, f.red).WithChild(f.side, spine.Root(hole))
  {
    ThenNodes(spine, f);
    if spine.Down? {
      RenamedNode(spine.up, f, spine.node);
    }
  }

  /** The frame of the node being deleted, seen from its right subtree, and of its successor there. */
  ghost function Frame(path: Path, t: Shape): Path
    requires t.Node?
  {
    Down(path, Right, t.node, t.key, t.red, t.left)
  }

  ghost function SuccessorFrame(path: Path, t: Shape, m: TreeNode, mk: nat): Path
    requires t.Node?
  {
    Down(path, Right, m, mk, t.red, t.left)
  }

  /** Focusing on the successor of a node with two children. */
  lemma {:induction false} SuccessorFocus(path: Path, t: Shape, spine: Path, m: TreeNode, mk: nat, mr: bool, x: Shape)
    requires t.Node? && path.Plug(t).Separate() && t.right == spine.Plug(Node(Leaf, m, mk, mr, x))
    ensures var f, g, s := Frame(path, t), SuccessorFrame(path, t, m, mk), Node(Leaf, m, mk, mr, x);
      && spine.Then(f).Plug(s) == path.Plug(t)
      && spine.Then(g).Plug(x) == path.Plug(Node(t.left, m, mk, t.red, spine.Plug(x)))
      && spine.Then(f).Separate() && m !in spine.Then(f).Nodes() && x.Separate() && m !in x.Nodes()
      && x.Nodes() !! spine.Then(f).Nodes() && t.node in spine.Then(f).Nodes()
      && spine.Then(g).Separate() && x.Nodes() !! spine.Then(g).Nodes()
      && spine.Then(g).Nodes() == spine.Then(f).Nodes() - {t.node} + {m}
  {
    var f, g, s := Frame(path, t), SuccessorFrame(path, t, m, mk), Node(Leaf, m, mk, mr, x);
    ThenPlug(spine, f, s);
    ThenPlug(spine, g, x);
    PlugNodes(spine.Then(f), s);
    ThenNodes(spine, f);
    ThenNodes(spine, g);
  }

  /** The successor `m` replaces the deleted node and its right child `x` replaces it in the right
      subtree, node by node. */
  lemma {:induction false} SucceededCells(path: Path, t: Shape, spine: Path, m: TreeNode, mk: nat, mr: bool, x: Shape,
                                          n: TreeNode)
    requires t.Node? && path.Plug(t).Separate() && t.left.Node?
    requires spine.LeftSpine() && t.right == spine.Plug(Node(Leaf, m, mk, mr, x))
    ensures var r := spine.Then(SuccessorFrame(path, t, m, mk)).Plug(x);
      && r.Separate() && r.Nodes() == path.Plug(t).Nodes() - {t.node}
      && (n in r.Nodes() ==> r.FieldsOf(n) == SucceededCell(path, t, spine, m, mk, x, n, path.Plug(t).FieldsOf(n)))
  {
    var f, g, s := Frame(path, t), SuccessorFrame(path, t, m, mk), Node(Leaf, m, mk, mr, x);
    SuccessorFocus(path, t, spine, m, mk, mr, x);
    PlugNodes(spine.Then(f), s);
    PlugNodes(spine.Then(g), x);
    var r := spine.Then(g).Plug(x);
    if n in r.Nodes() {
      PlugCells(spine.Then(g), x, n);
      if n == m {
        RenamedNode(spine, g, x.Ptr());
        if spine.Down? { RootHole(spine, m, x.Ptr()); }
      } else {
        PlugCells(spine.Then(f), s, n);
        if n in x.Nodes() {
          RehungCells(x, n, m, spine.Then(g).Above());
          OffPath(spine, path, t, n);
        } else {
          SucceededOnPath(path, t, spine, m, mk, x, n);
        }
      }
    }
  }

  lemma {:induction false} SucceededOnPath(path: Path, t: Shape, spine: Path, m: TreeNode, mk: nat, x: Shape,
                                           n: TreeNode)
    requires t.Node? && t.left.Node? && spine.LeftSpine()
    requires var f, g := Frame(path, t), SuccessorFrame(path, t, m, mk);
      && spine.Then(f).Separate() && spine.Then(g).Separate() && m !in spine.Then(f).Nodes()
      && n in spine.Then(f).Nodes() && n in spine.Then(g).Nodes() && n != t.node && n !in x.Nodes()
    ensures var f, g := Frame(path, t), SuccessorFrame(path, t, m, mk);
      spine.Then(g).CellAt(n, x.Ptr()) == SucceededCell(path, t, spine, m, mk, x, n, spine.Then(f).CellAt(n, m))
  {
    var f, g := Frame(path, t), SuccessorFrame(path, t, m, mk);
    RenamedCells(spine, f, m, mk, n, m);
    RefilledCells(spine.Then(g), n, m, x.Ptr());
    ThenNodes(spine, f);
    if spine.Down? {
      RootInside(spine, m);
    }
  }

  /** What tree_del leaves in the fields of node `n` that held `was`. */
  ghost function SucceededCell(path: Path, t: Shape, spine: Path, m: TreeNode, mk: nat, x: Shape, n: TreeNode,
                               was: Cell): Cell
    requires t.Node? && t.left.Node?
  {
    if n == m then
      Cell(t.left.node, if spine.Top? then x.Ptr() else spine.Root(m), path.Above(), mk, t.red)
    else if n == x.Ptr() then was.(parent := if spine.Top? then m else spine.node)
    else if n == t.left.node then was.(parent := m)
    else if path.Down? && n == path.node then was.WithChild(path.side, m)
    else
      var c := if spine.Down? && n == spine.Root(m) then was.(parent := m) else was;
      if spine.Down? && n == spine.node then c.WithChild(Left, x.Ptr()) else c
  }

  /** Nodes of the hole's new content are none of the nodes around the hole. */
  lemma {:induction false} OffPath(spine: Path, path: Path, t: Shape, n: TreeNode)
    requires t.Node? && t.left.Node? && n !in spine.Then(Frame(path, t)).Nodes()
    ensures n != t.left.node && (path.Down? ==> n != path.node)
    ensures spine.Down? ==> n != spine.node && forall hole :: n != spine.Root(hole)
  {
    ThenNodes(spine, Frame(path, t));
    if spine.Down? {
      forall hole ensures n != spine.Root(hole) { RootInside(spine, hole); }
    }
  }

  lemma {:induction false} LeftSpineBefore(p: Path)
    requires p.LeftSpine()
    ensures p.Before() == []
  {
    if p.Down? { LeftSpineBefore(p.up); }
  }

  /** Taking one entry out of the middle of a list takes its key out of the map. */
  lemma {:induction false} RemovedMap(s: seq<Entry>, r: seq<Entry>, a: seq<Entry>, e: Entry, b: seq<Entry>)
    requires Sorted(s) && s == a + [e] + b && r == a + b
    ensures Sorted(r) && MapOf(r) == MapOf(s) - {e.key}
  {
    MapOfInsert(a, e, b);
  }

  lemma {:induction false} BypassedOrder(path: Path, t: Shape, c: Shape) returns (a: seq<Entry>, b: seq<Entry>)
    requires t.Node?
    requires (t.left == Leaf && c == t.right) || (t.right == Leaf && c == t.left)
    ensures path.Plug(t).InOrder() == a + [Entry(t.key, t.node)] + b
    ensures path.Plug(c).InOrder() == a + b
  {
    PlugInOrder(path, t);
    PlugInOrder(path, c);
    var l, e, r := t.left.InOrder(), Entry(t.key, t.node), t.right.InOrder();
    a, b := path.Before() + l, r + path.After();
    Regrouped(path.Before(), l, e, r, path.After());
    Closed(path.Before(), l, r, path.After());
    assert c.InOrder() == l + r;
  }

  lemma {:induction false} Closed(a: seq<Entry>, l: seq<Entry>, r: seq<Entry>, b: seq<Entry>)
    ensures a + (l + r) + b == (a + l) + (r + b)
  {
  }

  /** The leftmost node of a tree comes first. */
  lemma {:induction false} SuccessorFirst(spine: Path, m: TreeNode, mk: nat, mr: bool, x: Shape)
    requires spine.LeftSpine()
    ensures spine.Plug(Node(Leaf, m, mk, mr, x)).InOrder() == [Entry(mk, m)] + spine.Plug(x).InOrder()
  {
    var s := Node(Leaf, m, mk, mr, x);
    PlugInOrder(spine, s);
    PlugInOrder(spine, x);
    LeftSpineBefore(spine);
    assert s.InOrder() == [Entry(mk, m)] + x.InOrder();
    HeadFirst(Entry(mk, m), x.InOrder(), spine.After());
  }

  lemma {:induction false} HeadFirst(e: Entry, x: seq<Entry>, b: seq<Entry>)
    ensures [] + ([e] + x) + b == [e] + ([] + x + b)
  {
  }

  lemma {:induction false} Regrouped(a: seq<Entry>, l: seq<Entry>, e: Entry, r: seq<Entry>, b: seq<Entry>)
    ensures a + (l + [e] + r) + b == (a + l) + [e] + (r + b)
    ensures (a + l) + [e] + (r + b) == (a + l) + ([e] + (r + b))
  {
  }

  lemma {:induction false} SucceededOrder(path: Path, t: Shape, spine: Path, m: TreeNode, mk: nat, mr: bool, x: Shape)
    returns (a: seq<Entry>, b: seq<Entry>)
    requires t.Node? && spine.LeftSpine() && t.right == spine.Plug(Node(Leaf, m, mk, mr, x))
    ensures path.Plug(t).InOrder() == a + [Entry(t.key, t.node)] + b
    ensures path.Plug(Node(t.left, m, mk, t.red, spine.Plug(x))).InOrder() == a + b
  {
    PlugInOrder(path, t);
    PlugInOrder(path, Node(t.left, m, mk, t.red, spine.Plug(x)));
    SuccessorFirst(spine, m, mk, mr, x);
    a, b := path.Before() + t.left.InOrder(), t.right.InOrder() + path.After();
    Regrouped(path.Before(), t.left.InOrder(), Entry(t.key, t.node), t.right.InOrder(), path.After());
    Regrouped(path.Before(), t.left.InOrder(), Entry(mk, m), spine.Plug(x).InOrder(), path.After());
    assert b == [Entry(mk, m)] + (spine.Plug(x).InOrder() + path.After());
  }

  /** Either way of taking the focus out removes exactly its key from the map. */
  lemma {:induction false} BypassedMap(path: Path, t: Shape, c: Shape)
    requires t.Node? && Sorted(path.Plug(t).InOrder())
    requires (t.left == Leaf && c == t.right) || (t.right == Leaf && c == t.left)
    ensures Sorted(path.Plug(c).InOrder())
    ensures MapOf(path.Plug(c).InOrder()) == MapOf(path.Plug(t).InOrder()) - {t.key}
  {
    var a, b := BypassedOrder(path, t, c);
    RemovedMap(path.Plug(t).InOrder(), path.Plug(c).InOrder(), a, Entry(t.key, t.node), b);
  }

  lemma {:induction false} SucceededMap(path: Path, t: Shape, spine: Path, m: TreeNode, mk: nat, mr: bool, x: Shape)
    requires t.Node? && Sorted(path.Plug(t).InOrder())
    requires spine.LeftSpine() && t.right == spine.Plug(Node(Leaf, m, mk, mr, x))
    ensures var r := path.Plug(Node(t.left, m, mk, t.red, spine.Plug(x))).InOrder();
      Sorted(r) && MapOf(r) == MapOf(path.Plug(t).InOrder()) - {t.key}
  {
    var a, b := SucceededOrder(path, t, spine, m, mk, mr, x);
    var u := Node(t.left, m, mk, t.red, spine.Plug(x));
    RemovedMap(path.Plug(t).InOrder(), path.Plug(u).InOrder(), a, Entry(t.key, t.node), b);
  }

  /** Where a black node of black height `h` was taken out and a tree one shorter put in. */
  ghost predicate Deficit(path: Path, c: Shape, h: nat) {
    path.IsRB(h) && h >= 1 && c.IsRB(h - 1)
  }

  /** The hole left by a removed node of the given colour: still balanced if it was red, one
      black node short on this side if it was black. */
  ghost predicate Removed(path: Path, c: Shape, red: bool, h: nat) {
    if red then path.IsRB(h) && c.IsRB(h) && c.Black() else Deficit(path, c, h)
  }

  lemma {:induction false} BypassedRB(path: Path, t: Shape, c: Shape, whole: nat) returns (h: nat)
    requires t.Node? && path.Plug(t).IsRB(whole) && path.Plug(t).Black()
    requires (t.left == Leaf && c == t.right) || (t.right == Leaf && c == t.left)
    ensures Removed(path, c, t.red, h)
  {
    h := OpenRB(path, t, whole);
  }

  lemma {:induction false} SucceededRB(path: Path, t: Shape, spine: Path, m: TreeNode, mk: nat, mr: bool, x: Shape,
                                       whole: nat)
    returns (h: nat)
    requires t.Node? && path.Plug(t).IsRB(whole) && path.Plug(t).Black()
    requires t.right == spine.Plug(Node(Leaf, m, mk, mr, x))
    ensures Removed(spine.Then(SuccessorFrame(path, t, m, mk)), x, mr, h)
  {
    var f, s := Frame(path, t), Node(Leaf, m, mk, mr, x);
    ThenPlug(spine, f, s);
    h := OpenRB(spine.Then(f), s, whole);
    RenameOnPath(spine, f, m, mk, h);
  }

  /** All about the tree in which the successor `m` stands in for the node of the focus `t`. */
  lemma {:induction false} Succession(path: Path, t: Shape, spine: Path, m: TreeNode, mk: nat, mr: bool, x: Shape,
                                      whole: nat)
    returns (h: nat)
    requires t.Node? && path.Plug(t).IsRB(whole) && path.Plug(t).Black() && Sorted(path.Plug(t).InOrder())
    requires spine.LeftSpine() && t.right == spine.Plug(Node(Leaf, m, mk, mr, x))
    ensures spine.Root(m) == t.right.Ptr()
    ensures var p := spine.Then(SuccessorFrame(path, t, m, mk));
      && Removed(p, x, mr, h)
      && Sorted(p.Plug(x).InOrder())
      && MapOf(p.Plug(x).InOrder()) == MapOf(path.Plug(t).InOrder()) - {t.key}
  {
    PlugRoot(spine, Node(Leaf, m, mk, mr, x));
    SucceededMap(path, t, spine, m, mk, mr, x);
    ThenPlug(spine, SuccessorFrame(path, t, m, mk), x);
    h := SucceededRB(path, t, spine, m, mk, mr, x, whole);
  }

  /** The sibling of a place one black node short is never a leaf, and below a red node it is black. */
  lemma {:induction false} SiblingRB(path: Path, c: Shape, h: nat)
    requires Deficit(path, c, h) && path.Down?
    ensures path.other.Node? && path.other.IsRB(h) && path.up.IsRB(if path.red then h else h + 1)
    ensures path.other.red ==> !path.red && path.other.left.Node? && path.other.right.Node?
    ensures path.other.red ==> path.other.left.IsRB(h) && path.other.right.IsRB(h)
    ensures path.other.red ==> !path.other.left.red && !path.other.right.red
    ensures !path.other.red ==> path.other.left.IsRB(h - 1) && path.other.right.IsRB(h - 1)
    ensures path.red ==> path.up.BlackAbove()
  {
    if path.other.red {
      assert path.other.left.IsRB(h) && path.other.right.IsRB(h);
    }
  }

  /** Balance after the sibling was red and has been rotated up. */
  lemma {:induction false} LiftedRB(path: Path, c: Shape, h: nat)
    requires Deficit(path, c, h) && path.Down? && path.other.Node? && path.other.red
    ensures var s := path.other;
      Deficit(Down(Down(path.up, path.side, s.node, s.key, false, s.Kid(path.side.Flip())),
                   path.side, path.node, path.key, true, s.Kid(path.side)), c, h)
  {
    SiblingRB(path, c, h);
  }

  /** Balance after a red near nephew beside a black far one has become the sibling. */
  lemma {:induction false} StraightenedRB(path: Path, c: Shape, h: nat)
    requires Deficit(path, c, h) && path.Down? && path.other.Node? && !path.other.red
    requires path.other.Kid(path.side).Node? && path.other.Kid(path.side).red
    requires path.other.Kid(path.side.Flip()).Black()
    ensures var s, cis := path.other, path.side;
      var near, far := s.Kid(cis), s.Kid(cis.Flip());
      Deficit(path.(other := Mk(cis, near.Kid(cis), near.node, near.key, false,
                                Mk(cis, near.Kid(cis.Flip()), s.node, s.key, true, far))), c, h)
  {
    SiblingRB(path, c, h);
    var s, cis := path.other, path.side;
    var near, far := s.Kid(cis), s.Kid(cis.Flip());
    assert near.IsRB(h - 1) && far.IsRB(h - 1);
    assert Mk(cis, near.Kid(cis.Flip()), s.node, s.key, true, far).IsRB(h - 1);
  }

  /** Balance after a nephew on the far side was red and the sibling has been rotated up. */
  lemma {:induction false} RestoredRB(path: Path, c: Shape, h: nat) returns (whole: nat)
    requires Deficit(path, c, h) && path.Down? && path.other.Node? && !path.other.red
    requires path.other.Kid(path.side.Flip()).Node? && path.other.Kid(path.side.Flip()).red
    ensures var s := path.other;
      var near, far := s.Kid(path.side), s.Kid(path.side.Flip());
      var r := path.up.Plug(Mk(path.side, Mk(path.side, c, path.node, path.key, false, near),
                               s.node, s.key, path.red, far.(red := false)));
      r.IsRB(whole) && r.Black()
  {
    SiblingRB(path, c, h);
    var s := path.other;
    var near, far := s.Kid(path.side), s.Kid(path.side.Flip());
    var f := Mk(path.side, Mk(path.side, c, path.node, path.key, false, near), s.node, s.key, path.red,
                far.(red := false));
    var g := if path.red then h else h + 1;
    assert far.(red := false).IsRB(h) && near.IsRB(h - 1);
    assert Mk(path.side, c, path.node, path.key, false, near).IsRB(h);
    assert f.IsRB(g);
    whole := CloseRB(path.up, f, g);
  }

  /** Balance after both nephews were black and the sibling has been painted red: the shortage
      moves up to the parent, or is made up for by painting a red parent black. */
  lemma {:induction false} RaisedRB(path: Path, c: Shape, h: nat)
    requires Deficit(path, c, h) && path.Down? && path.other.Node? && !path.other.red
    requires path.other.left.Black() && path.other.right.Black()
    ensures var f := Mk(path.side, c, path.node, path.key, path.red, path.other.(red := true));
      && (path.red ==> path.up.IsRB(h) && f.(red := false).IsRB(h))
      && (!path.red ==> Deficit(path.up, f, h + 1))
  {
    SiblingRB(path, c, h);
  }

  /** Rearranging a subtree without changing its order leaves the order of the whole tree. */
  lemma {:induction false} Rearranged(p: Path, t: Shape, r: Shape)
    requires r.InOrder() == t.InOrder() && r.Nodes() == t.Nodes()
    requires p.Plug(t).Separate() && r.Separate()
    ensures p.Plug(r).InOrder() == p.Plug(t).InOrder()
    ensures p.Plug(r).Nodes() == p.Plug(t).Nodes()
    ensures p.Plug(r).Separate()
  {
    PlugInOrder(p, t);
    PlugInOrder(p, r);
    PlugNodes(p, t);
    PlugNodes(p, r);
  }

  lemma {:induction false} ThenPlug(p: Path, outer: Path, t: Shape)
    ensures p.Then(outer).Plug(t) == outer.Plug(p.Plug(t))
    ensures p.Then(outer).Length() == p.Length() + outer.Length()
  {
    if p.Down? {
      ThenPlug(p.up, outer, Mk(p.side, t, p.node, p.key, p.red, p.other));
    }
  }

  lemma {:induction false} Locate(t: Shape, node: TreeNode) returns (p: Path, s: Shape)
    requires node in t.Nodes()
    ensures p.Plug(s) == t && s.Node? && s.node == node
  {
    if t.node == node {
      p, s := Top, t;
    } else {
      var side := if node in t.left.Nodes() then Left else Right;
      var inner;
      inner, s := Locate(t.Kid(side), node);
      var frame := Down(Top, side, t.node, t.key, t.red, t.Kid(side.Flip()));
      p := inner.Then(frame);
      ThenPlug(inner, frame, s);
    }
  }

  // ---- red-black balance -------------------------------------------------------------------

  /** The black height of a tree hanging in a hole of a red-black tree fits the hole. */
  lemma {:induction false} OpenRB(p: Path, t: Shape, whole: nat) returns (h: nat)
    requires p.Plug(t).IsRB(whole) && p.Plug(t).Black()
    ensures t.IsRB(h) && p.IsRB(h)
    ensures t.Black() || p.BlackAbove()
  {
    if p.Top? {
      h := whole;
    } else {
      var f := Mk(p.side, t, p.node, p.key, p.red, p.other);
      var g := OpenRB(p.up, f, whole);
      h := if p.red then g else g - 1;
    }
  }

  lemma {:induction false} CloseRB(p: Path, t: Shape, h: nat) returns (whole: nat)
    requires t.IsRB(h) && p.IsRB(h)
    requires t.Black() || p.BlackAbove()
    ensures p.Plug(t).IsRB(whole) && p.Plug(t).Black()
  {
    if p.Top? {
      whole := h;
    } else {
      whole := CloseRB(p.up, Mk(p.side, t, p.node, p.key, p.red, p.other), if p.red then h else h + 1);
    }
  }

  /** Balance only looks at colours: renaming one node on the path does not matter. */
  lemma {:induction false} RenameOnPath(spine: Path, f: Path, node: TreeNode, key: nat, h: nat)
    requires f.Down?
    ensures spine.Then(f).IsRB(h) == spine.Then(f.(node := node, key := key)).IsRB(h)
    ensures spine.Then(f).BlackAbove() == spine.Then(f.(node := node, key := key)).BlackAbove()
  {
    if spine.Down? {
      RenameOnPath(spine.up, f, node, key, if spine.red then h else h + 1);
    }
  }

  /** Balance around a red node under a red parent, after each branch of the insertion fix-up. */
  lemma {:induction false} InsertRB(path: Path, t: Shape, h: nat)
    requires t.Node? && t.red && t.IsRB(h) && path.IsRB(h) && path.Down? && path.red
    ensures path.up.Down? && !path.up.red
    ensures var up, cis, g, gk, u := path.up.up, path.up.side, path.up.node, path.up.key, path.up.other;
      var p := Mk(path.side, t, path.node, path.key, false, path.other);
      && u.IsRB(h)
      && (!u.Black() ==> up.IsRB(h + 1) && Mk(cis, p, g, gk, true, u.(red := false)).IsRB(h + 1))
      && (u.Black() ==> Down(up, cis, path.node, path.key, false, Mk(cis, path.other, g, gk, true, u)).IsRB(h))
  {
  }

  /** Once no clash is left above the red focus, painting the root black balances the tree. */
  lemma {:induction false} InsertDone(path: Path, t: Shape, h: nat) returns (whole: nat)
    requires t.Node? && t.red && t.IsRB(h) && path.IsRB(h) && (path.Down? ==> !path.red)
    ensures path.Plug(t).Node? && path.Plug(t).(red := false).IsRB(whole)
  {
    if path.Down? {
      whole := CloseRB(path, t, h);
    } else {
      whole := h + 1;
    }
  }

  ghost function Pow2(n: nat): (r: nat)
    ensures r >= 1
  { if n == 0 then 1 else 2 * Pow2(n - 1) }

  lemma {:induction false} Pow2Sum(a: nat, b: nat)
    ensures Pow2(a + b) == Pow2(a) * Pow2(b)
    ensures a <= b ==> Pow2(a) <= Pow2(b)
  {
    if a > 0 {
      Pow2Sum(a - 1, b);
      if a <= b { Pow2Sum(a - 1, b - 1); }
    }
  }

  /** A red-black tree of black height h has at least 2^h - 1 nodes and at most 2h + 1 levels,
      2h if its root is black. */
  lemma {:induction false} BlackHeightBounds(t: Shape, h: nat)
    requires t.IsRB(h)
    ensures |t.InOrder()| + 1 >= Pow2(h)
    ensures t.Height() <= 2 * h + (if t.Black() then 0 else 1)
  {
    if t.Node? {
      var g := if t.red then h else h - 1;
      BlackHeightBounds(t.left, g);
      BlackHeightBounds(t.right, g);
    }
  }

  /** Height at most 2 log2(n + 1), written without logarithms. */
  lemma {:induction false} HeightBound(t: Shape, h: nat)
    requires t.IsRB(h) && t.Black()
    ensures Pow2(t.Height()) <= (|t.InOrder()| + 1) * (|t.InOrder()| + 1)
  {
    BlackHeightBounds(t, h);
    Pow2Sum(t.Height(), 2 * h);
    Pow2Sum(h, h);
    SquareMonotone(Pow2(h), |t.InOrder()| + 1);
  }

  lemma {:induction false} SquareMonotone(x: nat, y: nat)
    requires x <= y
    ensures x * x <= y * y
  {
    assert x * x <= x * y <= y * y;
  }
}
