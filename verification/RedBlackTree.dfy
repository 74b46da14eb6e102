/** tree_t of src/lib/wepoll.c: nodes linked by left, right and parent pointers, updated in place.

    `shape` is the tree value the pointers stand for.  The pointer surgeries (attach, rotate,
    paint, unlink) are proved against operations on that value; the two balancing loops then
    reason about values only. */
module RedBlackTree {
  import opened RedBlackShape

  ghost function CellOf(n: TreeNode): Cell
    reads n
  {
    Cell(n.left, n.right, n.parent, n.key, n.red)
  }

  function ChildOf(n: TreeNode, s: Side): TreeNode?
    reads n
  {
    if s == Left then n.left else n.right
  }

  /** The pointers from `root` on spell out the tree `s`. */
  ghost predicate Spells(root: TreeNode?, s: Shape)
    reads s.Nodes()
  {
    && root == s.Ptr() && s.Separate()
    && forall n :: n in s.Nodes() ==> CellOf(n) == s.FieldsOf(n)
  }

  /** The pointers spell out a tree with an empty hole, except that the hole already holds `node`. */
  ghost predicate HoleHolds(root: TreeNode?, path: Path, node: TreeNode)
    reads path.Plug(Leaf).Nodes()
  {
    && path.Plug(Leaf).Separate()
    && root == (if path.Top? then node else path.Plug(Leaf).Ptr())
    && forall n :: n in path.Plug(Leaf).Nodes() ==>
      var was := path.Plug(Leaf).FieldsOf(n);
      CellOf(n) == if path.Down? && n == path.node then was.WithChild(path.side, node) else was
  }

  /** What tree_del relies on around a node `node0` with two children and its successor `next`. */
  ghost predicate Surroundings(was: map<TreeNode, Cell>, node0: TreeNode, next: TreeNode, left: TreeNode,
                               right: TreeNode) {
    && {node0, next, left, right} <= was.Keys
    && var parent0, x, above := was[node0].parent, was[next].right, was[next].parent;
    && was[next].left == null
    && node0 !in {next, left, right} && left !in {next, right, x, above}
    && (x != null ==> x in was && x !in {node0, next, right, above})
    && (next != right ==> above != null && above in was && above !in {node0, next})
    && (parent0 != null ==>
      && parent0 in was && parent0 !in {node0, next, left, right, x} && (next != right ==> parent0 != above)
      && (was[parent0].left == node0 || was[parent0].right == node0))
  }

  /** The fields after the surgery on a node with two children: `next` has taken over the place,
      the children and the colour of `node0`, and its right child has taken its place. */
  ghost predicate StoodIn(was: map<TreeNode, Cell>, node0: TreeNode, next: TreeNode, left: TreeNode, right: TreeNode)
    requires Surroundings(was, node0, next, left, right)
    reads was.Keys
  {
    var parent0, x := was[node0].parent, was[next].right;
    var above := if next == right then next else was[next].parent;
    && CellOf(next) == Cell(left, if next == right then x else right, parent0, was[next].key, was[node0].red)
    && CellOf(left) == was[left].(parent := next)
    && (parent0 != null ==>
      CellOf(parent0) == was[parent0].WithChild(if was[parent0].left == node0 then Left else Right, next))
    && (x != null ==> CellOf(x) == was[x].(parent := above))
    && (next != right && above != right ==>
      CellOf(above) == was[above].(left := x) && CellOf(right) == was[right].(parent := next))
    && (next != right && above == right ==> CellOf(right) == was[right].(parent := next, left := x))
    && forall n :: n in was && n !in {next, left, right, above} && n != x && n != parent0 ==> CellOf(n) == was[n]
  }

  class Tree {
    var root: TreeNode?
    ghost var shape: Shape

    ghost predicate Linked()
      reads this, shape.Nodes()
    {
      Spells(root, shape)
    }

    ghost predicate Balanced()
      reads this
    {
      shape.Black() && exists h :: shape.IsRB(h)
    }

    ghost predicate Valid()
      reads this, shape.Nodes()
    {
      Linked() && Sorted(shape.InOrder()) && Balanced()
    }

    ghost function Contents(): map<nat, TreeNode>
      reads this
      requires Sorted(shape.InOrder())
    {
      MapOf(shape.InOrder())
    }

    /** tree_init */
    constructor ()
      ensures Valid() && shape == Leaf && Contents() == map[]
    {
      root, shape := null, Leaf;
      new;
      assert shape.IsRB(0);
    }

    /** What the pointers around the focus `t` under `path` look like. */
    lemma {:induction false} Focus(path: Path, t: Shape)
      requires Linked() && shape == path.Plug(t)
      ensures root == path.Root(t.Ptr())
      ensures t.Node? ==>
        && t.node in shape.Nodes()
        && CellOf(t.node) == Cell(t.left.Ptr(), t.right.Ptr(), path.Above(), t.key, t.red)
      ensures path.Down? ==>
        && path.node in shape.Nodes()
        && CellOf(path.node) == Cell(path.other.Ptr(), path.other.Ptr(), path.up.Above(), path.key, path.red)
                                  .WithChild(path.side, t.Ptr())
        && path.other.Ptr() != path.node && t.Ptr() != path.node
      ensures path.Down? && t.Node? ==> path.other.Ptr() != t.node
    {
      PlugNodes(path, t);
      PlugRoot(path, t);
      if t.Node? { PlugCells(path, t, t.node); }
      if path.Down? { PlugCells(path, t, path.node); }
    }

    /** The pointers a rotation reads. */
    lemma {:induction false} RotateFocus(cis: Side, path: Path, t: Shape)
      requires Linked() && shape == path.Plug(t) && t.Node? && t.Kid(cis.Flip()).Node?
      ensures var p, q := t.node, t.Kid(cis.Flip()).node;
        var b := t.Kid(cis.Flip()).Kid(cis).Ptr();
        && p in shape.Nodes() && q in shape.Nodes() && (b != null ==> b in shape.Nodes())
        && p != q && p != b && q != b
        && p.parent == path.Above() && ChildOf(p, cis.Flip()) == q && ChildOf(q, cis) == b
        && root == path.Root(p)
        && (path.Down? ==>
          && path.node in shape.Nodes() && path.node != p && path.node != q && path.node != b
          && ChildOf(path.node, path.side) == p && ChildOf(path.node, path.side.Flip()) != p)
    {
      var u := t.Kid(cis.Flip());
      var f := Down(path, cis.Flip(), t.node, t.key, t.red, t.Kid(cis));
      Focus(path, t);
      Focus(f, u);
      PlugNodes(path, t);
      PlugNodes(f, u);
    }

    /** With the fields of at most four nodes rewritten, the pointers spell out the rotated tree. */
    lemma {:induction false} RotateDone(cis: Side, path: Path, t: Shape, was: map<TreeNode, Cell>, p: TreeNode,
                                        q: TreeNode, b: TreeNode?)
      requires t.Node? && t.Kid(cis.Flip()).Node? && path.Plug(t).Separate()
      requires p == t.node && q == t.Kid(cis.Flip()).node && b == t.Kid(cis.Flip()).Kid(cis).Ptr()
      requires was.Keys == path.Plug(t).Nodes() && p in was && q in was && (b != null ==> b in was)
      requires path.Down? ==> path.node in was
      requires forall n :: n in was ==> was[n] == path.Plug(t).FieldsOf(n)
      requires root == if path.Top? then q else path.Plug(t).Ptr()
      requires CellOf(p) == was[p].WithChild(cis.Flip(), b).(parent := q)
      requires CellOf(q) == was[q].WithChild(cis, p).(parent := path.Above())
      requires b != null && b != p && b != q ==> CellOf(b) == was[b].(parent := p)
      requires path.Down? && path.node !in {p, q, b} ==> CellOf(path.node) == was[path.node].WithChild(path.side, q)
      requires forall n :: n in was && n != p && n != q && n != b && n != path.Above() ==> CellOf(n) == was[n]
      ensures var r := path.Plug(Rotated(cis, t));
        Spells(root, r) && r.Nodes() == path.Plug(t).Nodes() && r.InOrder() == path.Plug(t).InOrder()
    {
      var r := Rotated(cis, t);
      RotatedInOrder(cis, t);
      PlugNodes(path, t);
      SameRoot(path, t, r);
      Rearranged(path, t, r);
      forall n | n in path.Plug(r).Nodes()
        ensures CellOf(n) == path.Plug(r).FieldsOf(n)
      {
        RotatedCells(cis, path, t, n);
      }
    }

    /** tree__rotate_left: TREE__ROTATE(left, right) */
    method RotateLeft(node: TreeNode, ghost path: Path, ghost t: Shape)
      requires Linked() && shape == path.Plug(t) && t.Node? && t.node == node && t.right.Node?
      modifies this, shape.Nodes()`left, shape.Nodes()`right, shape.Nodes()`parent
      ensures Linked() && shape == path.Plug(Rotated(Left, t))
      ensures shape.Nodes() == old(shape.Nodes()) && shape.InOrder() == old(shape.InOrder())
    {
      RotateFocus(Left, path, t);
      ghost var was := map n | n in shape.Nodes() :: CellOf(n);
      ghost var q, b := node.right, node.right.left;
      TurnLeft(node, shape.Nodes());
      shape := path.Plug(Rotated(Left, t));
      RotateDone(Left, path, t, was, node, q, b);
    }

    /** What it does to the pointers: at most four nodes of the tree are concerned. */
    method TurnLeft(p: TreeNode, ghost nodes: set<TreeNode>)
      requires p in nodes && p.right != null && p.right in nodes && p.right != p
      requires p.right.left != null ==> p.right.left in nodes && p.right.left !in {p, p.right}
      requires p.parent != null ==>
        && p.parent in nodes && p.parent !in {p, p.right, p.right.left}
        && (p.parent.left == p || p.parent.right == p)
      modifies `root, nodes`left, nodes`right, nodes`parent
      ensures var q, parent := old(p.right), old(p.parent);
        var b := old(q.left);
        && root == (if parent == null then q else old(root))
        && CellOf(p) == old(CellOf(p)).WithChild(Left.Flip(), b).(parent := q)
        && CellOf(q) == old(CellOf(q)).WithChild(Left, p).(parent := parent)
        && (b != null ==> CellOf(b) == old(CellOf(b)).(parent := p))
        && (parent != null ==>
          CellOf(parent) == old(CellOf(parent)).WithChild(if old(parent.left) == p then Left else Right, q))
        && forall n :: n in nodes && n !in {p, q, b, parent} ==> CellOf(n) == old(CellOf(n))
    {
      var q, parent := p.right, p.parent;
      if parent != null {
        if parent.left == p { parent.left := q; } else { parent.right := q; }
      } else {
        root := q;
      }
      q.parent := parent;
      p.parent := q;
      p.right := q.left;
      if p.right != null {
        p.right.parent := p;
      }
      q.left := p;
    }

    /** tree__rotate_right: TREE__ROTATE(right, left) */
    method RotateRight(node: TreeNode, ghost path: Path, ghost t: Shape)
      requires Linked() && shape == path.Plug(t) && t.Node? && t.node == node && t.left.Node?
      modifies this, shape.Nodes()`left, shape.Nodes()`right, shape.Nodes()`parent
      ensures Linked() && shape == path.Plug(Rotated(Right, t))
      ensures shape.Nodes() == old(shape.Nodes()) && shape.InOrder() == old(shape.InOrder())
    {
      RotateFocus(Right, path, t);
      ghost var was := map n | n in shape.Nodes() :: CellOf(n);
      ghost var q, b := node.left, node.left.right;
      TurnRight(node, shape.Nodes());
      shape := path.Plug(Rotated(Right, t));
      RotateDone(Right, path, t, was, node, q, b);
    }

    /** What it does to the pointers: at most four nodes of the tree are concerned. */
    method TurnRight(p: TreeNode, ghost nodes: set<TreeNode>)
      requires p in nodes && p.left != null && p.left in nodes && p.left != p
      requires p.left.right != null ==> p.left.right in nodes && p.left.right !in {p, p.left}
      requires p.parent != null ==>
        && p.parent in nodes && p.parent !in {p, p.left, p.left.right}
        && (p.parent.left == p || p.parent.right == p)
      modifies `root, nodes`left, nodes`right, nodes`parent
      ensures var q, parent := old(p.left), old(p.parent);
        var b := old(q.right);
        && root == (if parent == null then q else old(root))
        && CellOf(p) == old(CellOf(p)).WithChild(Right.Flip(), b).(parent := q)
        && CellOf(q) == old(CellOf(q)).WithChild(Right, p).(parent := parent)
        && (b != null ==> CellOf(b) == old(CellOf(b)).(parent := p))
        && (parent != null ==>
          CellOf(parent) == old(CellOf(parent)).WithChild(if old(parent.left) == p then Left else Right, q))
        && forall n :: n in nodes && n !in {p, q, b, parent} ==> CellOf(n) == old(CellOf(n))
    {
      var q, parent := p.left, p.parent;
      if parent != null {
        if parent.left == p { parent.left := q; } else { parent.right := q; }
      } else {
        root := q;
      }
      q.parent := parent;
      p.parent := q;
      p.left := q.right;
      if p.left != null {
        p.left.parent := p;
      }
      q.right := p;
    }

    /** TREE__ROTATE(cis, trans) */
    method Rotate(cis: Side, node: TreeNode, ghost path: Path, ghost t: Shape)
      requires Linked() && shape == path.Plug(t) && t.Node? && t.node == node && t.Kid(cis.Flip()).Node?
      modifies this, shape.Nodes()`left, shape.Nodes()`right, shape.Nodes()`parent
      ensures Linked() && shape == path.Plug(Rotated(cis, t))
      ensures shape.Nodes() == old(shape.Nodes()) && shape.InOrder() == old(shape.InOrder())
    {
      if cis == Left { RotateLeft(node, path, t); } else { RotateRight(node, path, t); }
    }

    /** An assignment to the `red` field of a node of the tree. */
    method Paint(node: TreeNode, red: bool, ghost path: Path, ghost t: Shape)
      requires Linked() && shape == path.Plug(t) && t.Node? && t.node == node
      modifies this, node`red
      ensures Linked() && shape == path.Plug(t.(red := red))
      ensures shape.Nodes() == old(shape.Nodes()) && shape.InOrder() == old(shape.InOrder())
    {
      ghost var was := map n | n in shape.Nodes() :: CellOf(n);
      node.red := red;
      shape := path.Plug(t.(red := red));
      PlugNodes(path, t);
      SameRoot(path, t, t.(red := red));
      Rearranged(path, t, t.(red := red));
      forall n | n in shape.Nodes()
        ensures CellOf(n) == shape.FieldsOf(n)
      {
        PaintedCells(path, t, red, n);
        assert CellOf(n) == if n == node then was[n].(red := red) else was[n];
      }
    }

    /** The recolouring branch of TREE__REBALANCE_AFTER_INSERT(cis, trans): the uncle is red. */
    method RecolourAfterInsert(cis: Side, parent: TreeNode, uncle: TreeNode, grandparent: TreeNode, ghost up: Path,
                               ghost p: Shape, ghost u: Shape, ghost gk: nat)
      requires Linked() && shape == up.Plug(Mk(cis, p, grandparent, gk, false, u))
      requires p.Node? && p.node == parent && u.Node? && u.node == uncle
      modifies this, parent`red, uncle`red, grandparent`red
      ensures Linked()
      ensures shape == up.Plug(Mk(cis, p.(red := false), grandparent, gk, true, u.(red := false)))
      ensures shape.Nodes() == old(shape.Nodes()) && shape.InOrder() == old(shape.InOrder())
    {
      Focusing(up, cis, p, grandparent, gk, false, u);
      Paint(uncle, false, Down(up, cis.Flip(), grandparent, gk, false, p), u);
      Focusing(up, cis, p, grandparent, gk, false, u.(red := false));
      Paint(parent, false, Down(up, cis, grandparent, gk, false, u.(red := false)), p);
      Focusing(up, cis, p.(red := false), grandparent, gk, false, u.(red := false));
      Paint(grandparent, true, up, Mk(cis, p.(red := false), grandparent, gk, false, u.(red := false)));
    }

    /** The outer case of the rotating branch: the node is the `cis` child of its parent, which
        is the `cis` child of the grandparent. */
    method RotateAfterInsert(cis: Side, parent: TreeNode, grandparent: TreeNode, ghost up: Path, ghost t: Shape,
                             ghost pk: nat, ghost o: Shape, ghost gk: nat, ghost u: Shape)
      requires Linked()
      requires shape == up.Plug(Mk(cis, Mk(cis, t, parent, pk, true, o), grandparent, gk, false, u))
      modifies this, shape.Nodes()`left, shape.Nodes()`right, shape.Nodes()`parent, parent`red, grandparent`red
      ensures Linked()
      ensures shape == up.Plug(Mk(cis, t, parent, pk, false, Mk(cis, o, grandparent, gk, true, u)))
      ensures shape.Nodes() == old(shape.Nodes()) && shape.InOrder() == old(shape.InOrder())
    {
      Focusing(up, cis, Mk(cis, t, parent, pk, true, o), grandparent, gk, false, u);
      Paint(parent, false, Down(up, cis, grandparent, gk, false, u), Mk(cis, t, parent, pk, true, o));
      Focusing(up, cis, Mk(cis, t, parent, pk, false, o), grandparent, gk, false, u);
      Paint(grandparent, true, up, Mk(cis, Mk(cis, t, parent, pk, false, o), grandparent, gk, false, u));
      RotatedUp(cis, t, parent, pk, false, o, grandparent, gk, true, u);
      Rotate(cis.Flip(), grandparent, up, Mk(cis, Mk(cis, t, parent, pk, false, o), grandparent, gk, true, u));
    }

    /** The pointers TREE__REBALANCE_AFTER_INSERT reads; the grandparent is never null. */
    lemma {:induction false} InsertFocus(path: Path, t: Shape)
      requires Linked() && shape == path.Plug(t) && t.Node?
      requires path.Down? && path.up.Down?
      ensures var p, g, u := path.node, path.up.node, path.up.other;
        && t.node in shape.Nodes() && p in shape.Nodes() && g in shape.Nodes()
        && t.node.parent == p && p.parent == g && ChildOf(g, path.up.side) == p
        && ChildOf(g, path.up.side.Flip()) == u.Ptr() && u.Ptr() != p
        && (u.Node? ==> u.node in shape.Nodes() && u.node.red == u.red)
        && ChildOf(p, path.side) == t.node && ChildOf(p, path.side.Flip()) != t.node
    {
      var f := Mk(path.side, t, path.node, path.key, path.red, path.other);
      Focus(path, t);
      Focus(path.up, f);
      Focusing(path.up.up, path.up.side, f, path.up.node, path.up.key, path.up.red, path.up.other);
      Focus(Down(path.up.up, path.up.side.Flip(), path.up.node, path.up.key, path.up.red, f), path.up.other);
    }

    /** The inner case of the rotating branch, turned into the outer one: a red node that is the
        `trans` child of its red parent changes places with it. */
    method StraightenAfterInsert(cis: Side, node0: TreeNode, parent0: TreeNode, ghost path0: Path, ghost t0: Shape,
                                 ghost h: nat)
      returns (node: TreeNode, parent: TreeNode, ghost path: Path, ghost t: Shape)
      requires Linked() && shape == path0.Plug(t0) && t0.Node? && t0.node == node0
      requires t0.red && t0.IsRB(h) && path0.IsRB(h)
      requires path0.Down? && path0.red && path0.node == parent0 && path0.side == cis.Flip() && path0.up.Down?
      modifies this, shape.Nodes()`left, shape.Nodes()`right, shape.Nodes()`parent
      ensures Linked() && shape == path.Plug(t) && t.Node? && t.node == node
      ensures t.red && t.IsRB(h) && path.IsRB(h)
      ensures path.Down? && path.red && path.node == parent && path.side == cis && path.up == path0.up
      ensures parent in shape.Nodes()
      ensures shape.Nodes() == old(shape.Nodes()) && shape.InOrder() == old(shape.InOrder())
    {
      Rotate(cis, parent0, path0.up, Mk(cis, path0.other, parent0, path0.key, true, t0));
      path := Down(path0.up, cis, node0, t0.key, true, t0.Kid(cis.Flip()));
      t := Mk(cis, path0.other, parent0, path0.key, true, t0.Kid(cis));
      node := parent0;
      InsertFocus(path, t);
      parent := node.parent;
    }

    /** TREE__REBALANCE_AFTER_INSERT(cis, trans) at the red node `node0` under a red parent.
        Afterwards a red-red clash, if any is left, sits strictly nearer to the root. */
    method RebalanceAfterInsert(cis: Side, node0: TreeNode, ghost path0: Path, ghost t0: Shape, ghost h0: nat)
      returns (node: TreeNode, ghost path: Path, ghost t: Shape, ghost h: nat)
      requires Linked() && shape == path0.Plug(t0) && t0.Node? && t0.node == node0
      requires t0.red && t0.IsRB(h0) && path0.IsRB(h0)
      requires path0.Down? && path0.red && path0.up.Down? && path0.up.side == cis
      modifies this, shape.Nodes()`left, shape.Nodes()`right, shape.Nodes()`parent, shape.Nodes()`red
      ensures Linked() && shape == path.Plug(t) && t.Node? && t.node == node
      ensures t.red && t.IsRB(h) && path.IsRB(h) && path.Length() < path0.Length()
      ensures shape.Nodes() == old(shape.Nodes()) && shape.InOrder() == old(shape.InOrder())
    {
      InsertFocus(path0, t0);
      InsertRB(path0, t0, h0);
      node, path, t, h := node0, path0, t0, h0;
      ghost var up, gk, u := path.up.up, path.up.key, path.up.other;
      var parent := node.parent;
      var grandparent := parent.parent;
      var uncle := ChildOf(grandparent, cis.Flip());
      if uncle != null && uncle.red {
        ghost var p := Mk(path.side, t, parent, path.key, true, path.other);
        RecolourAfterInsert(cis, parent, uncle, grandparent, up, p, u, gk);
        t := Mk(cis, p.(red := false), grandparent, gk, true, u.(red := false));
        node, path, h := grandparent, up, h + 1;
      } else {
        if node == ChildOf(parent, cis.Flip()) {
          node, parent, path, t := StraightenAfterInsert(cis, node, parent, path, t, h);
        }
        InsertRB(path, t, h);
        RotateAfterInsert(cis, parent, grandparent, up, t, path.key, path.other, gk, u);
        path := Down(up, cis, parent, path.key, false, Mk(cis, path.other, grandparent, gk, true, u));
      }
    }

    /** The body of the loop of tree_add. */
    method ClimbAfterInsert(node0: TreeNode, parent0: TreeNode, ghost path0: Path, ghost t0: Shape, ghost h0: nat)
      returns (node: TreeNode, parent: TreeNode?, ghost path: Path, ghost t: Shape, ghost h: nat)
      requires Linked() && shape == path0.Plug(t0) && t0.Node? && t0.node == node0
      requires t0.red && t0.IsRB(h0) && path0.IsRB(h0) && path0.Down? && path0.red && path0.node == parent0
      modifies this, shape.Nodes()`left, shape.Nodes()`right, shape.Nodes()`parent, shape.Nodes()`red
      ensures Linked() && shape == path.Plug(t) && t.Node? && t.node == node
      ensures t.red && t.IsRB(h) && path.IsRB(h) && path.Length() < path0.Length()
      ensures parent == path.Above() && (parent != null ==> parent in shape.Nodes() && parent.red == path.red)
      ensures shape.Nodes() == old(shape.Nodes()) && shape.InOrder() == old(shape.InOrder())
    {
      InsertRB(path0, t0, h0);
      InsertFocus(path0, t0);
      var cis := if parent0 == parent0.parent.left then Left else Right;
      node, path, t, h := RebalanceAfterInsert(cis, node0, path0, t0, h0);
      Focus(path, t);
      parent := node.parent;
    }

    /** The loop of tree_add, from the freshly attached red node up, and the final repainting of
        the root. */
    method FixAfterInsert(node0: TreeNode, ghost path0: Path, ghost t0: Shape, ghost h0: nat)
      requires Linked() && shape == path0.Plug(t0) && t0.Node? && t0.node == node0
      requires t0.red && t0.IsRB(h0) && path0.IsRB(h0)
      modifies this, shape.Nodes()`left, shape.Nodes()`right, shape.Nodes()`parent, shape.Nodes()`red
      ensures Linked() && Balanced()
      ensures shape.Nodes() == old(shape.Nodes()) && shape.InOrder() == old(shape.InOrder())
    {
      var node := node0;
      ghost var path, t, h := path0, t0, h0;
      Focus(path, t);
      var parent := node.parent;
      while parent != null && parent.red
        invariant Linked() && shape == path.Plug(t) && t.Node? && t.node == node
        invariant t.red && t.IsRB(h) && path.IsRB(h)
        invariant parent == path.Above() && (parent != null ==> parent in shape.Nodes() && parent.red == path.red)
        invariant shape.Nodes() == old(shape.Nodes()) && shape.InOrder() == old(shape.InOrder())
        decreases path.Length()
      {
        node, parent, path, t, h := ClimbAfterInsert(node, parent, path, t, h);
      }
      ghost var whole := InsertDone(path, t, h);
      Paint(root, false, Top, shape);
    }

    /** With the new node's fields set, the pointers spell out the tree with the node attached. */
    lemma {:induction false} AttachDone(path: Path, node: TreeNode, key: nat)
      requires HoleHolds(root, path, node) && node !in path.Plug(Leaf).Nodes()
      requires CellOf(node) == Cell(null, null, path.Above(), key, true)
      ensures var r := path.Plug(Node(Leaf, node, key, true, Leaf));
        Spells(root, r) && r.Nodes() == path.Plug(Leaf).Nodes() + {node}
    {
      var t := Node(Leaf, node, key, true, Leaf);
      SameRoot(path, Leaf, t);
      AttachedCells(path, node, key, node);
      forall n | n in path.Plug(t).Nodes()
        ensures CellOf(n) == path.Plug(t).FieldsOf(n)
      {
        AttachedCells(path, node, key, n);
      }
    }

    /** The first half of tree_add: finds the hole `key` belongs into and puts `node` there. */
    method Insert(node: TreeNode, key: nat) returns (found: bool, parent: TreeNode?, ghost path: Path, ghost t: Shape)
      requires Linked() && Sorted(shape.InOrder()) && node !in shape.Nodes()
      modifies `root, shape.Nodes()`left, shape.Nodes()`right
      ensures shape == path.Plug(t) && Between(path, key)
      ensures found ==> t.Node? && t.key == key && Linked() && root == old(root)
      ensures !found ==> t == Leaf && parent == path.Above() && HoleHolds(root, path, node)
    {
      parent := root;
      path, t := Top, shape;
      if parent != null {
        while true
          invariant Linked() && shape == path.Plug(t) && root == old(root)
          invariant t.Node? && parent == t.node && Between(path, key)
          decreases t
        {
          Focus(path, t);
          Descend(path, t, key);
          if key < parent.key {
            path, t := Down(path, Left, parent, t.key, t.red, t.right), t.left;
            if parent.left != null {
              parent := parent.left;
            } else {
              parent.left := node;
              break;
            }
          } else if key > parent.key {
            path, t := Down(path, Right, parent, t.key, t.red, t.left), t.right;
            if parent.right != null {
              parent := parent.right;
            } else {
              parent.right := node;
              break;
            }
          } else {
            found := true;
            return;
          }
        }
      } else {
        root := node;
      }
      found := false;
    }

    /** The assignments to the fields of the new node. */
    method SetUp(node: TreeNode, key: nat, parent: TreeNode?, ghost path: Path)
      requires HoleHolds(root, path, node) && node !in path.Plug(Leaf).Nodes() && parent == path.Above()
      modifies `shape, node
      ensures shape == path.Plug(Node(Leaf, node, key, true, Leaf)) && Linked()
      ensures shape.Nodes() == path.Plug(Leaf).Nodes() + {node} && node.key == key
    {
      node.key := key;
      node.left, node.right := null, null;
      node.parent := parent;
      node.red := true;
      assert HoleHolds(root, path, node);
      shape := path.Plug(Node(Leaf, node, key, true, Leaf));
      AttachDone(path, node, key);
    }

    /** tree_add */
    method Add(node: TreeNode, key: nat) returns (r: int)
      requires Valid() && node !in shape.Nodes()
      modifies this, shape.Nodes(), node
      ensures Valid()
      ensures r == if key in old(Contents()) then -1 else 0
      ensures r == 0 ==>
        && Contents() == old(Contents())[key := node] && node.key == key
        && shape.Nodes() == old(shape.Nodes()) + {node}
      ensures r == -1 ==> root == old(root) && shape == old(shape) && CellOf(node) == old(CellOf(node))
    {
      ghost var whole :| shape.IsRB(whole);
      var found, parent;
      ghost var path, t;
      found, parent, path, t := Insert(node, key);
      SearchEnds(path, t, key);
      if found {
        return -1;
      }
      AttachedMap(path, node, key);
      AttachNode(node, key, parent, path, whole);
      r := 0;
    }

    /** The second half of tree_add */
    method AttachNode(node: TreeNode, key: nat, parent: TreeNode?, ghost path: Path, ghost whole: nat)
      requires HoleHolds(root, path, node) && shape == path.Plug(Leaf) && shape.IsRB(whole) && shape.Black()
      requires node !in shape.Nodes() && parent == path.Above()
      modifies this, shape.Nodes(), node
      ensures Linked() && Balanced() && node.key == key
      ensures shape.Nodes() == old(shape.Nodes()) + {node}
      ensures shape.InOrder() == path.Plug(Node(Leaf, node, key, true, Leaf)).InOrder()
    {
      ghost var h := OpenRB(path, Leaf, whole);
      SetUp(node, key, parent, path);
      FixAfterInsert(node, path, Node(Leaf, node, key, true, Leaf), h);
    }

    /** tree_find.  The number of iterations is at most 2 log2(n + 1) for a tree of n nodes. */
    method Find(key: nat) returns (node: TreeNode?, ghost steps: nat)
      requires Valid()
      ensures node == Lookup(key)
      ensures Pow2(steps) <= (|Contents()| + 1) * (|Contents()| + 1)
    {
      node, steps := root, 0;
      ghost var path, t := Top, shape;
      while node != null
        invariant Linked() && shape == path.Plug(t) && node == t.Ptr() && Between(path, key)
        invariant steps + t.Height() <= shape.Height()
        decreases t
      {
        FindFocus(path, t, key);
        steps := steps + 1;
        if key < node.key {
          path, t := Down(path, Left, node, t.key, t.red, t.right), t.left;
          node := node.left;
        } else if key > node.key {
          path, t := Down(path, Right, node, t.key, t.red, t.left), t.right;
          node := node.right;
        } else {
          FindEnd(path, t, key);
          FindSteps(steps);
          return;
        }
      }
      FindEnd(path, t, key);
      FindSteps(steps);
    }

    /** The node `key` is mapped to, null if there is none. */
    ghost function Lookup(key: nat): TreeNode?
      reads this
      requires Sorted(shape.InOrder())
    {
      if key in Contents() then Contents()[key] else null
    }

    lemma {:induction false} FindFocus(path: Path, t: Shape, key: nat)
      requires Linked() && Sorted(shape.InOrder()) && shape == path.Plug(t) && Between(path, key) && t.Node?
      ensures CellOf(t.node) == Cell(t.left.Ptr(), t.right.Ptr(), path.Above(), t.key, t.red)
      ensures key < t.key ==> Between(Down(path, Left, t.node, t.key, t.red, t.right), key)
      ensures t.key < key ==> Between(Down(path, Right, t.node, t.key, t.red, t.left), key)
    {
      Focus(path, t);
      Descend(path, t, key);
    }

    lemma {:induction false} FindEnd(path: Path, t: Shape, key: nat)
      requires Sorted(shape.InOrder()) && shape == path.Plug(t) && Between(path, key) && (t.Node? ==> t.key == key)
      ensures Lookup(key) == t.Ptr()
    {
      SearchEnds(path, t, key);
    }

    lemma {:induction false} FindSteps(steps: nat)
      requires Sorted(shape.InOrder()) && Balanced() && steps <= shape.Height()
      ensures Pow2(steps) <= (|Contents()| + 1) * (|Contents()| + 1)
    {
      var h :| shape.IsRB(h);
      HeightBound(shape, h);
      Pow2Sum(steps, shape.Height());
      MapOfSize(shape.InOrder());
    }

    lemma {:induction false} BypassedFields(path: Path, child: TreeNode?, n: TreeNode, was: map<TreeNode, Cell>)
      requires n in was && (child != null ==> child in was) && (path.Down? ==> path.node in was)
      requires path.Down? ==> CellOf(path.node) == was[path.node].WithChild(path.side, child)
      requires child != null ==> CellOf(child) == was[child].(parent := path.Above())
      requires forall x :: x in was && x != child && x != path.Above() ==> CellOf(x) == was[x]
      ensures CellOf(n) == BypassedCell(path, child, n, was[n])
    {
    }

    /** With at most two nodes' fields rewritten, the pointers spell out the tree without `t.node`. */
    lemma {:induction false} BypassDone(path: Path, t: Shape, c: Shape, was: map<TreeNode, Cell>)
      requires t.Node? && path.Plug(t).Separate()
      requires (t.left == Leaf && c == t.right) || (t.right == Leaf && c == t.left)
      requires was.Keys == path.Plug(t).Nodes() && (c.Node? ==> c.node in was) && (path.Down? ==> path.node in was)
      requires forall n :: n in was ==> was[n] == path.Plug(t).FieldsOf(n)
      requires root == if path.Top? then c.Ptr() else path.Plug(t).Ptr()
      requires path.Down? ==> CellOf(path.node) == was[path.node].WithChild(path.side, c.Ptr())
      requires c.Node? ==> CellOf(c.node) == was[c.node].(parent := path.Above())
      requires forall n :: n in was && n != c.Ptr() && n != path.Above() ==> CellOf(n) == was[n]
      ensures path.Plug(c).Nodes() == path.Plug(t).Nodes() - {t.node}
      ensures root == path.Plug(c).Ptr() && path.Plug(c).Separate()
      ensures forall n :: n in path.Plug(c).Nodes() ==> CellOf(n) == path.Plug(c).FieldsOf(n)
    {
      SameRoot(path, t, c);
      BypassedCells(path, t, c, t.node);
      forall n | n in path.Plug(c).Nodes()
        ensures CellOf(n) == path.Plug(c).FieldsOf(n)
      {
        BypassedFields(path, c.Ptr(), n, was);
        BypassedCells(path, t, c, n);
      }
    }

    /** The surgery of tree_del on a node with at most one child `next`. */
    method Bypass(node: TreeNode, next: TreeNode?, parent: TreeNode?, ghost path: Path, ghost t: Shape, ghost c: Shape)
      requires Linked() && shape == path.Plug(t) && t.Node? && t.node == node && parent == path.Above()
      requires (t.left == Leaf && c == t.right) || (t.right == Leaf && c == t.left)
      requires next == c.Ptr()
      modifies this, shape.Nodes()
      ensures Linked() && shape == path.Plug(c) && shape.Nodes() == old(shape.Nodes()) - {node}
    {
      Focus(path, t);
      assert next != null ==> next in shape.Nodes() && next != parent by { PlugNodes(path, t); }
      ghost var was := map n | n in shape.Nodes() :: CellOf(n);
      Splice(node, next, parent, shape.Nodes());
      shape := path.Plug(c);
      BypassDone(path, t, c, was);
    }

    /** What it does to the pointers: at most two nodes of the tree are concerned. */
    method Splice(node: TreeNode, next: TreeNode?, parent: TreeNode?, ghost nodes: set<TreeNode>)
      requires parent != null ==> parent in nodes && (parent.left == node || parent.right == node)
      requires next != null ==> next in nodes && next != parent
      modifies `root, nodes
      ensures root == if parent == null then next else old(root)
      ensures parent != null ==>
        CellOf(parent) == old(CellOf(parent)).WithChild(if old(parent.left) == node then Left else Right, next)
      ensures next != null ==> CellOf(next) == old(CellOf(next)).(parent := parent)
      ensures forall n :: n in nodes && n != parent && n != next ==> CellOf(n) == old(CellOf(n))
    {
      if parent != null {
        if parent.left == node { parent.left := next; } else { parent.right := next; }
      } else {
        root := next;
      }
      if next != null {
        next.parent := parent;
      }
    }

    /** Makes whatever holds `node` (its parent, or the root pointer) hold `next` instead. */
    method Redirect(node: TreeNode, next: TreeNode?, parent: TreeNode?)
      requires parent != null ==> (parent.left == node || parent.right == node)
      modifies `root, (if parent == null then {} else {parent})`left, (if parent == null then {} else {parent})`right
      ensures root == if parent == null then next else old(root)
      ensures parent != null ==>
        CellOf(parent) == old(CellOf(parent)).WithChild(if old(parent.left) == node then Left else Right, next)
    {
      if parent != null {
        if parent.left == node { parent.left := next; } else { parent.right := next; }
      } else {
        root := next;
      }
    }

    /** The block of tree_del for a node with two children: `next` takes over the children, the
        parent and the colour of `node0`, and its right child takes its place. */
    method Transplant(node0: TreeNode, next: TreeNode, left: TreeNode, right: TreeNode, parent0: TreeNode?,
                      ghost nodes: set<TreeNode>)
      returns (node: TreeNode?, parent: TreeNode, red: bool)
      requires {node0, next, left, right} <= nodes && next.left == null && node0.parent == parent0
      requires node0 !in {next, left, right} && left !in {next, right, next.right, next.parent}
      requires next.right != null ==> next.right in nodes && next.right !in {node0, next, right, next.parent}
      requires next != right ==> next.parent != null && next.parent in nodes && next.parent !in {node0, next}
      modifies nodes
      ensures red == old(next.red) && node == old(next.right)
      ensures CellOf(next) == Cell(left, if next == right then node else right, parent0, old(next.key), old(node0.red))
      ensures parent == (if next == right then next else old(next.parent))
      ensures CellOf(left) == old(CellOf(left)).(parent := next)
      ensures node != null ==> CellOf(node) == old(CellOf(node)).(parent := parent)
      ensures next != right && parent != right ==>
        && CellOf(parent) == old(CellOf(parent)).(left := node)
        && CellOf(right) == old(CellOf(right)).(parent := next)
      ensures next != right && parent == right ==> CellOf(right) == old(CellOf(right)).(parent := next, left := node)
      ensures forall n :: n in nodes && n !in {next, left, right, parent} && n != node ==> CellOf(n) == old(CellOf(n))
    {
      parent := next;
      red := next.red;
      next.red := node0.red;
      next.left := left;
      left.parent := next;
      if next != right {
        parent := next.parent;
        next.parent := node0.parent;
        node := next.right;
        parent.left := node;
        next.right := right;
        right.parent := next;
      } else {
        next.parent := parent0;
        parent := next;
        node := next.right;
      }
      if node != null {
        node.parent := parent;
      }
    }

    /** The field assignments of tree_del for a node with two children. */
    method StandIn(node0: TreeNode, next: TreeNode, left: TreeNode, right: TreeNode, parent0: TreeNode?,
                   ghost was: map<TreeNode, Cell>)
      returns (node: TreeNode?, parent: TreeNode, red: bool)
      requires forall n :: n in was ==> CellOf(n) == was[n]
      requires Surroundings(was, node0, next, left, right) && node0.parent == parent0
      modifies `root, was.Keys
      ensures root == if parent0 == null then next else old(root)
      ensures StoodIn(was, node0, next, left, right)
      ensures red == was[next].red && node == was[next].right
      ensures parent == if next == right then next else was[next].parent
    {
      Redirect(node0, next, parent0);
      assert forall n :: n in was && n != parent0 ==> CellOf(n) == was[n];
      node, parent, red := Transplant(node0, next, left, right, parent0, was.Keys);
    }

    /** A node with two children and its successor, seen as fields. */
    lemma {:induction false} SucceedFocus(path: Path, t: Shape, spine: Path, m: TreeNode, mk: nat, mr: bool, x: Shape,
                                          was: map<TreeNode, Cell>)
      requires Linked() && shape == path.Plug(t)
      requires t.Node? && t.left.Node? && t.right == spine.Plug(Node(Leaf, m, mk, mr, x))
      requires was.Keys == shape.Nodes() && forall n :: n in was ==> was[n] == CellOf(n)
      ensures spine.Root(m) != null && Surroundings(was, t.node, m, t.left.node, spine.Root(m))
      ensures was[t.node] == Cell(t.left.node, spine.Root(m), path.Above(), t.key, t.red)
      ensures was[m] == Cell(null, x.Ptr(), if spine.Top? then t.node else spine.node, mk, mr)
      ensures path.Down? ==> path.node in was && (was[path.node].left == t.node <==> path.side == Left)
      ensures spine.Down? ==> m != spine.Root(m)
    {
      var s, f := Node(Leaf, m, mk, mr, x), Frame(path, t);
      SuccessorFocus(path, t, spine, m, mk, mr, x);
      Focus(path, t);
      PlugRoot(spine, s);
      Focus(spine.Then(f), s);
      PlugNodes(spine.Then(f), s);
      ThenNodes(spine, f);
      if spine.Down? {
        RootInside(spine, m);
      }
      if x.Node? {
        OffPath(spine, path, t, x.node);
      }
      OffPath(spine, path, t, m);
      PlugNodes(path, t);
    }

    /** With those fields, the pointers spell out the tree in which `m` stands in for `t.node`. */
    lemma {:induction false} SucceedDone(path: Path, t: Shape, spine: Path, m: TreeNode, mk: nat, mr: bool, x: Shape,
                                         was: map<TreeNode, Cell>)
      requires t.Node? && t.left.Node? && path.Plug(t).Separate()
      requires spine.LeftSpine() && t.right == spine.Plug(Node(Leaf, m, mk, mr, x))
      requires was.Keys == path.Plug(t).Nodes()
      requires forall n :: n in was ==> was[n] == path.Plug(t).FieldsOf(n)
      requires root == if path.Top? then m else path.Plug(t).Ptr()
      requires forall n :: n in was && n != t.node ==> CellOf(n) == SucceededCell(path, t, spine, m, mk, x, n, was[n])
      ensures var r := spine.Then(SuccessorFrame(path, t, m, mk)).Plug(x);
        Spells(root, r) && r.Nodes() == path.Plug(t).Nodes() - {t.node}
    {
      var u := Node(t.left, m, mk, t.red, spine.Plug(x));
      SuccessorFocus(path, t, spine, m, mk, mr, x);
      SameRoot(path, t, u);
      SucceededCells(path, t, spine, m, mk, mr, x, t.node);
      var r := spine.Then(SuccessorFrame(path, t, m, mk)).Plug(x);
      forall n | n in r.Nodes()
        ensures CellOf(n) == r.FieldsOf(n)
      {
        SucceededCells(path, t, spine, m, mk, mr, x, n);
      }
    }

    lemma {:induction false} SucceedFields(path: Path, t: Shape, spine: Path, m: TreeNode, mk: nat, x: Shape,
                                           was: map<TreeNode, Cell>, n: TreeNode)
      requires t.Node? && t.left.Node? && n in was && n != t.node && spine.Root(m) != null
      requires Surroundings(was, t.node, m, t.left.node, spine.Root(m))
      requires StoodIn(was, t.node, m, t.left.node, spine.Root(m))
      requires was[t.node] == Cell(t.left.node, spine.Root(m), path.Above(), t.key, t.red)
      requires was[m].key == mk && was[m].right == x.Ptr() && (spine.Down? ==> was[m].parent == spine.node)
      requires path.Down? ==> path.node in was && (was[path.node].left == t.node <==> path.side == Left)
      requires spine.Down? ==> m != spine.Root(m)
      ensures CellOf(n) == SucceededCell(path, t, spine, m, mk, x, n, was[n])
    {
    }

    /** The surgery of tree_del on a node with two children: its successor `next`, the leftmost
        node of its right subtree, takes its place and its colour. */
    method Succeed(node0: TreeNode, next: TreeNode, left: TreeNode, right: TreeNode, parent0: TreeNode?,
                   ghost path: Path, ghost t: Shape, ghost spine: Path, ghost mk: nat, ghost mr: bool, ghost x: Shape)
      returns (node: TreeNode?, parent: TreeNode, red: bool)
      requires Linked() && shape == path.Plug(t) && t.Node? && t.node == node0 && t.left.Node?
      requires spine.LeftSpine() && t.right == spine.Plug(Node(Leaf, next, mk, mr, x))
      requires left == t.left.node && right == spine.Root(next) && parent0 == path.Above()
      modifies this, shape.Nodes()
      ensures Linked() && shape == spine.Then(SuccessorFrame(path, t, next, mk)).Plug(x)
      ensures shape.Nodes() == old(shape.Nodes()) - {node0}
      ensures node == x.Ptr() && parent == spine.Then(SuccessorFrame(path, t, next, mk)).Above() && red == mr
    {
      ghost var was := map n | n in shape.Nodes() :: CellOf(n);
      SucceedFocus(path, t, spine, next, mk, mr, x, was);
      node, parent, red := StandIn(node0, next, left, right, parent0, was);
      shape := spine.Then(SuccessorFrame(path, t, next, mk)).Plug(x);
      forall n | n in was && n != node0
        ensures CellOf(n) == SucceededCell(path, t, spine, next, mk, x, n, was[n])
      {
        SucceedFields(path, t, spine, next, mk, x, was, n);
      }
      SucceedDone(path, t, spine, next, mk, mr, x, was);
    }

    /** The leftmost node below `right`, found by the loop of tree_del. */
    method Leftmost(right: TreeNode, ghost path: Path, ghost t: Shape)
      returns (next: TreeNode, ghost spine: Path, ghost mk: nat, ghost mr: bool, ghost x: Shape)
      requires Linked() && shape == path.Plug(t) && t.Node? && t.right.Node? && t.right.node == right
      ensures Linked() && spine.LeftSpine() && t.right == spine.Plug(Node(Leaf, next, mk, mr, x))
    {
      next, spine := right, Top;
      ghost var u := t.right;
      LeftmostFocus(path, t, spine, u);
      while next.left != null
        invariant Linked() && spine.LeftSpine() && t.right == spine.Plug(u) && u.Node? && u.node == next
        invariant next.left == u.left.Ptr()
        decreases u
      {
        spine, u := Down(spine, Left, u.node, u.key, u.red, u.right), u.left;
        next := next.left;
        LeftmostFocus(path, t, spine, u);
      }
      mk, mr, x := u.key, u.red, u.right;
    }

    lemma {:induction false} LeftmostFocus(path: Path, t: Shape, spine: Path, u: Shape)
      requires Linked() && shape == path.Plug(t) && t.Node? && t.right == spine.Plug(u) && u.Node?
      ensures u.node.left == u.left.Ptr()
    {
      ThenPlug(spine, Frame(path, t), u);
      Focus(spine.Then(Frame(path, t)), u);
    }

    /** The two-children case of the first half of tree_del. */
    method UnlinkInner(node0: TreeNode, left: TreeNode, right: TreeNode, parent0: TreeNode?, ghost path0: Path,
                       ghost t: Shape, ghost whole: nat)
      returns (node: TreeNode?, parent: TreeNode, red: bool, ghost path: Path, ghost c: Shape, ghost h: nat)
      requires Linked() && Sorted(shape.InOrder()) && shape.Black() && shape.IsRB(whole)
      requires shape == path0.Plug(t) && t.Node? && t.node == node0 && parent0 == path0.Above()
      requires left == t.left.Ptr() && right == t.right.Ptr()
      modifies this, shape.Nodes()
      ensures Linked() && Sorted(shape.InOrder()) && shape == path.Plug(c)
      ensures node == c.Ptr() && parent == path.Above() && Removed(path, c, red, h)
      ensures shape.Nodes() == old(shape.Nodes()) - {node0}
      ensures Contents() == old(Contents()) - {t.key}
    {
      var next;
      ghost var spine, mk, mr;
      next, spine, mk, mr, c := Leftmost(right, path0, t);
      path := spine.Then(SuccessorFrame(path0, t, next, mk));
      h := Succession(path0, t, spine, next, mk, mr, c, whole);
      node, parent, red := Succeed(node0, next, left, right, parent0, path0, t, spine, mk, mr, c);
    }

    /** The first half of tree_del: takes `node0` out.  The focus is now what is left at the place
        of the node that went missing, and `red` is the colour that went missing with it. */
    method Unlink(node0: TreeNode, ghost path0: Path, ghost t: Shape, ghost whole: nat)
      returns (node: TreeNode?, parent: TreeNode?, red: bool, ghost path: Path, ghost c: Shape, ghost h: nat)
      requires Linked() && Sorted(shape.InOrder()) && shape.Black() && shape.IsRB(whole)
      requires shape == path0.Plug(t) && t.Node? && t.node == node0
      modifies this, shape.Nodes()
      ensures Linked() && Sorted(shape.InOrder()) && shape == path.Plug(c)
      ensures node == c.Ptr() && parent == path.Above() && Removed(path, c, red, h)
      ensures shape.Nodes() == old(shape.Nodes()) - {node0}
      ensures Contents() == old(Contents()) - {t.key}
    {
      Focus(path0, t);
      node, parent := node0, node0.parent;
      var left, right := node0.left, node0.right;
      if left == null || right == null {
        var next := if left == null then right else left;
        c, path := if left == null then t.right else t.left, path0;
        BypassedMap(path, t, c);
        h := BypassedRB(path, t, c, whole);
        red := node.red;
        Bypass(node, next, parent, path, t, c);
        node := next;
      } else {
        node, parent, red, path, c, h := UnlinkInner(node, left, right, parent, path0, t, whole);
      }
    }

    /** The red-sibling step of TREE__REBALANCE_AFTER_REMOVE(cis, trans). */
    method LiftSibling(cis: Side, parent: TreeNode, sibling: TreeNode, ghost up: Path, ghost c: Shape, ghost pk: nat,
                       ghost a: Shape, ghost sk: nat, ghost b: Shape)
      requires Linked() && shape == up.Plug(Mk(cis, c, parent, pk, false, Mk(cis, a, sibling, sk, true, b)))
      modifies this, shape.Nodes()`left, shape.Nodes()`right, shape.Nodes()`parent, parent`red, sibling`red
      ensures Linked() && shape == up.Plug(Mk(cis, Mk(cis, c, parent, pk, true, a), sibling, sk, false, b))
      ensures shape.Nodes() == old(shape.Nodes()) && shape.InOrder() == old(shape.InOrder())
    {
      Focusing(up, cis, c, parent, pk, false, Mk(cis, a, sibling, sk, true, b));
      Paint(sibling, false, Down(up, cis.Flip(), parent, pk, false, c), Mk(cis, a, sibling, sk, true, b));
      Focusing(up, cis, c, parent, pk, false, Mk(cis, a, sibling, sk, false, b));
      Paint(parent, true, up, Mk(cis, c, parent, pk, false, Mk(cis, a, sibling, sk, false, b)));
      Rotate(cis, parent, up, Mk(cis, c, parent, pk, true, Mk(cis, a, sibling, sk, false, b)));
    }

    /** The step for a red near nephew `n` beside a black far one: it becomes the sibling. */
    method StraightenSibling(cis: Side, sibling: TreeNode, n: TreeNode, ghost hole: Path, ghost x: Shape, ghost nk: nat,
                             ghost y: Shape, ghost sk: nat, ghost z: Shape)
      requires Linked() && shape == hole.Plug(Mk(cis, Mk(cis, x, n, nk, true, y), sibling, sk, false, z))
      modifies this, shape.Nodes()`left, shape.Nodes()`right, shape.Nodes()`parent, n`red, sibling`red
      ensures Linked() && shape == hole.Plug(Mk(cis, x, n, nk, false, Mk(cis, y, sibling, sk, true, z)))
      ensures shape.Nodes() == old(shape.Nodes()) && shape.InOrder() == old(shape.InOrder())
    {
      Focusing(hole, cis, Mk(cis, x, n, nk, true, y), sibling, sk, false, z);
      Paint(n, false, Down(hole, cis, sibling, sk, false, z), Mk(cis, x, n, nk, true, y));
      Focusing(hole, cis, Mk(cis, x, n, nk, false, y), sibling, sk, false, z);
      Paint(sibling, true, hole, Mk(cis, Mk(cis, x, n, nk, false, y), sibling, sk, false, z));
      RotatedUp(cis, x, n, nk, false, y, sibling, sk, true, z);
      Rotate(cis.Flip(), sibling, hole, Mk(cis, Mk(cis, x, n, nk, false, y), sibling, sk, true, z));
    }

    /** The last step, for a red far nephew `far`. */
    method RaiseSibling(cis: Side, parent: TreeNode, sibling: TreeNode, far: TreeNode, ghost up: Path, ghost c: Shape,
                        ghost pk: nat, ghost pr: bool, ghost y: Shape, ghost sk: nat, ghost z: Shape)
      requires Linked() && z.Node? && z.node == far
      requires shape == up.Plug(Mk(cis, c, parent, pk, pr, Mk(cis, y, sibling, sk, false, z)))
      modifies this, shape.Nodes()`left, shape.Nodes()`right, shape.Nodes()`parent, parent`red, sibling`red, far`red
      ensures Linked()
      ensures shape == up.Plug(Mk(cis, Mk(cis, c, parent, pk, false, y), sibling, sk, pr, z.(red := false)))
      ensures shape.Nodes() == old(shape.Nodes()) && shape.InOrder() == old(shape.InOrder())
    {
      ghost var hole := Down(up, cis.Flip(), parent, pk, pr, c);
      Focus(up, Mk(cis, c, parent, pk, pr, Mk(cis, y, sibling, sk, false, z)));
      Focusing(up, cis, c, parent, pk, pr, Mk(cis, y, sibling, sk, false, z));
      Paint(sibling, parent.red, hole, Mk(cis, y, sibling, sk, false, z));
      Focusing(hole, cis, y, sibling, sk, pr, z);
      Paint(far, false, Down(hole, cis.Flip(), sibling, sk, pr, y), z);
      PaintAndRotate(cis, parent, up, c, pk, pr, Mk(cis, y, sibling, sk, pr, z.(red := false)));
    }

    method PaintAndRotate(cis: Side, parent: TreeNode, ghost up: Path, ghost c: Shape, ghost pk: nat, ghost pr: bool,
                          ghost s: Shape)
      requires Linked() && shape == up.Plug(Mk(cis, c, parent, pk, pr, s)) && s.Node?
      modifies this, shape.Nodes()`left, shape.Nodes()`right, shape.Nodes()`parent, parent`red
      ensures Linked()
      ensures shape == up.Plug(Mk(cis, Mk(cis, c, parent, pk, false, s.Kid(cis)), s.node, s.key, s.red,
                                  s.Kid(cis.Flip())))
      ensures shape.Nodes() == old(shape.Nodes()) && shape.InOrder() == old(shape.InOrder())
    {
      Paint(parent, false, up, Mk(cis, c, parent, pk, pr, s));
      Rotate(cis, parent, up, Mk(cis, c, parent, pk, false, s));
    }

    /** The pointers TREE__REBALANCE_AFTER_REMOVE reads; the sibling is never null. */
    lemma {:induction false} RemoveFocus(path: Path, c: Shape)
      requires Linked() && shape == path.Plug(c) && path.Down? && path.other.Node?
      ensures var s, cis := path.other, path.side;
        var near, far := s.Kid(cis), s.Kid(cis.Flip());
        && path.node in shape.Nodes() && s.node in shape.Nodes()
        && ChildOf(path.node, cis) == c.Ptr() && ChildOf(path.node, cis.Flip()) == s.node && c.Ptr() != s.node
        && path.node.parent == path.up.Above() && path.node.red == path.red && s.node.red == s.red
        && ChildOf(s.node, cis) == near.Ptr() && ChildOf(s.node, cis.Flip()) == far.Ptr()
        && (near.Node? ==> near.node in shape.Nodes() && near.node.red == near.red)
        && (far.Node? ==> far.node in shape.Nodes() && far.node.red == far.red)
    {
      var s, cis := path.other, path.side;
      var f := Mk(cis, c, path.node, path.key, path.red, s);
      var hole := Down(path.up, cis.Flip(), path.node, path.key, path.red, c);
      Focus(path, c);
      Focus(path.up, f);
      Focusing(path.up, cis, c, path.node, path.key, path.red, s);
      Focus(hole, s);
      Focusing(hole, cis, s.Kid(cis), s.node, s.key, s.red, s.Kid(cis.Flip()));
      Focus(Down(hole, cis, s.node, s.key, s.red, s.Kid(cis.Flip())), s.Kid(cis));
      Focus(Down(hole, cis.Flip(), s.node, s.key, s.red, s.Kid(cis)), s.Kid(cis.Flip()));
    }

    /** The red-nephew branch of TREE__REBALANCE_AFTER_REMOVE(cis, trans): it ends the repair. */
    method RotateSiblingUp(cis: Side, parent: TreeNode, sibling0: TreeNode, ghost path0: Path, ghost c: Shape,
                           ghost h: nat)
      requires Linked() && shape == path0.Plug(c) && Deficit(path0, c, h)
      requires path0.Down? && path0.side == cis && path0.node == parent
      requires path0.other.Node? && path0.other.node == sibling0 && !path0.other.red
      requires !path0.other.left.Black() || !path0.other.right.Black()
      modifies this, shape.Nodes()`left, shape.Nodes()`right, shape.Nodes()`parent, shape.Nodes()`red
      ensures Linked() && Balanced()
      ensures shape.Nodes() == old(shape.Nodes()) && shape.InOrder() == old(shape.InOrder())
    {
      var trans := cis.Flip();
      var sibling := sibling0;
      ghost var path, up, s := path0, path0.up, path0.other;
      RemoveFocus(path, c);
      if ChildOf(sibling, trans) == null || !ChildOf(sibling, trans).red {
        ghost var near, far := s.Kid(cis), s.Kid(trans);
        ghost var hole := Down(up, trans, parent, path.key, path.red, c);
        Focusing(up, cis, c, parent, path.key, path.red, s);
        StraightenSibling(cis, sibling, ChildOf(sibling, cis), hole, near.Kid(cis), near.key, near.Kid(trans), s.key,
                          far);
        s := Mk(cis, near.Kid(cis), near.node, near.key, false, Mk(cis, near.Kid(trans), sibling, s.key, true, far));
        path := Down(up, cis, parent, path.key, path.red, s);
        Focusing(up, cis, c, parent, path.key, path.red, s);
        StraightenedRB(path0, c, h);
        RemoveFocus(path, c);
        sibling := ChildOf(parent, trans);
      }
      ghost var whole := RestoredRB(path, c, h);
      RaiseSibling(cis, parent, sibling, ChildOf(sibling, trans), up, c, path.key, path.red, s.Kid(cis), s.key,
                   s.Kid(trans));
      assert shape.IsRB(whole);
    }

    /** TREE__REBALANCE_AFTER_REMOVE(cis, trans) for the `cis` child of `parent`, which is one black
        node short.  Either the tree is balanced again (`done`, the break), or the subtree at
        `parent` is: `f` is that subtree, and the shortage has moved up to it if it is black. */
    method RebalanceAfterRemove(cis: Side, parent: TreeNode, ghost path0: Path, ghost c: Shape, ghost h0: nat)
      returns (done: bool, ghost path: Path, ghost f: Shape, ghost h: nat)
      requires Linked() && shape == path0.Plug(c) && Deficit(path0, c, h0)
      requires path0.Down? && path0.side == cis && path0.node == parent
      modifies this, shape.Nodes()`left, shape.Nodes()`right, shape.Nodes()`parent, shape.Nodes()`red
      ensures Linked()
      ensures shape.Nodes() == old(shape.Nodes()) && shape.InOrder() == old(shape.InOrder())
      ensures done ==> Balanced()
      ensures !done ==> shape == path.Plug(f) && f.Node? && f.node == parent
      ensures !done && f.red ==> path.IsRB(h) && f.(red := false).IsRB(h)
      ensures !done && !f.red ==> Deficit(path, f, h) && path.Length() < path0.Length()
    {
      path, f, h := path0, c, h0;
      SiblingRB(path, c, h);
      RemoveFocus(path, c);
      var sibling := ChildOf(parent, cis.Flip());
      if sibling.red {
        ghost var s := path.other;
        LiftedRB(path, c, h);
        LiftSibling(cis, parent, sibling, path.up, c, path.key, s.Kid(cis), s.key, s.Kid(cis.Flip()));
        path := Down(Down(path.up, cis, sibling, s.key, false, s.Kid(cis.Flip())), cis, parent, path.key, true,
                     s.Kid(cis));
        RemoveFocus(path, c);
        sibling := ChildOf(parent, cis.Flip());
      }
      if (sibling.left != null && sibling.left.red) || (sibling.right != null && sibling.right.red) {
        RotateSiblingUp(cis, parent, sibling, path, c, h);
        done := true;
      } else {
        f, h := PaintSibling(cis, parent, sibling, path, c, h);
        done, path := false, path.up;
      }
    }

    /** The sibling, whose children are black, becomes red. */
    method PaintSibling(cis: Side, parent: TreeNode, sibling: TreeNode, ghost path: Path, ghost c: Shape, ghost h: nat)
      returns (ghost f: Shape, ghost whole: nat)
      requires Linked() && shape == path.Plug(c) && Deficit(path, c, h)
      requires path.Down? && path.side == cis && path.node == parent
      requires path.other.Node? && path.other.node == sibling && !path.other.red
      requires path.other.left.Black() && path.other.right.Black()
      modifies this, sibling`red
      ensures Linked()
      ensures shape.Nodes() == old(shape.Nodes()) && shape.InOrder() == old(shape.InOrder())
      ensures shape == path.up.Plug(f) && f.Node? && f.node == parent && f.red == path.red
      ensures f.red ==> path.up.IsRB(whole) && f.(red := false).IsRB(whole)
      ensures !f.red ==> Deficit(path.up, f, whole)
    {
      RaisedRB(path, c, h);
      Focusing(path.up, cis, c, parent, path.key, path.red, path.other);
      Paint(sibling, true, Down(path.up, cis.Flip(), parent, path.key, path.red, c), path.other);
      f := Mk(cis, c, parent, path.key, path.red, path.other.(red := true));
      Focusing(path.up, cis, c, parent, path.key, path.red, path.other.(red := true));
      whole := if path.red then h else h + 1;
    }

    /** One turn of the loop of tree_del */
    method ClimbAfterRemove(node: TreeNode?, parent: TreeNode, ghost path0: Path, ghost c: Shape, ghost h0: nat)
      returns (done: bool, ghost path: Path, ghost f: Shape, ghost h: nat)
      requires Linked() && shape == path0.Plug(c) && Deficit(path0, c, h0)
      requires path0.Down? && path0.node == parent && node == c.Ptr()
      modifies this, shape.Nodes()`left, shape.Nodes()`right, shape.Nodes()`parent, shape.Nodes()`red
      ensures Linked()
      ensures shape.Nodes() == old(shape.Nodes()) && shape.InOrder() == old(shape.InOrder())
      ensures done ==> Balanced()
      ensures !done ==> shape == path.Plug(f) && f.Node? && f.node == parent
      ensures !done && f.red ==> path.IsRB(h) && f.(red := false).IsRB(h)
      ensures !done && !f.red ==> Deficit(path, f, h) && path.Length() < path0.Length()
    {
      SiblingRB(path0, c, h0);
      RemoveFocus(path0, c);
      var cis := if node == parent.left then Left else Right;
      done, path, f, h := RebalanceAfterRemove(cis, parent, path0, c, h0);
    }

    /** The loop of tree_del and the final repainting. */
    method FixAfterRemove(node0: TreeNode?, parent0: TreeNode?, ghost path0: Path, ghost c: Shape, ghost h0: nat)
      requires Linked() && shape == path0.Plug(c) && Deficit(path0, c, h0) && c.Black()
      requires node0 == c.Ptr() && parent0 == path0.Above()
      modifies this, shape.Nodes()`left, shape.Nodes()`right, shape.Nodes()`parent, shape.Nodes()`red
      ensures Linked() && Balanced()
      ensures shape.Nodes() == old(shape.Nodes()) && shape.InOrder() == old(shape.InOrder())
    {
      var node, parent := node0, parent0;
      ghost var path, f, h := path0, c, h0;
      ghost var whole: nat;
      while true
        invariant Linked() && shape == path.Plug(f) && node == f.Ptr() && parent == path.Above()
        invariant Deficit(path, f, h) && f.Black()
        invariant shape.Nodes() == old(shape.Nodes()) && shape.InOrder() == old(shape.InOrder())
        decreases path.Length()
      {
        Focus(path, f);
        if node == root {
          RootIsTop(path, f);
          path, whole := Top, h - 1;
          break;
        }
        RootIsTop(path, f);
        var done;
        done, path, f, h := ClimbAfterRemove(node, parent, path, f, h);
        if done {
          node, path, f := root, Top, shape;
          whole :| shape.IsRB(whole);
          break;
        }
        Focus(path, f);
        node := parent;
        parent := node.parent;
        if node.red {
          whole := CloseRB(path, f.(red := false), h);
          break;
        }
      }
      if node != null {
        Paint(node, false, path, f);
      }
      assert shape.IsRB(whole);
    }

    /** Only the root of the tree is what the root pointer holds. */
    lemma {:induction false} RootIsTop(path: Path, f: Shape)
      requires Linked() && shape == path.Plug(f)
      ensures f.Ptr() == root <==> path.Top?
    {
      PlugRoot(path, f);
      PlugNodes(path, f);
      if path.Down? { RootInside(path, f.Ptr()); }
    }

    /** tree_del */
    method Del(node0: TreeNode)
      requires Valid() && node0 in shape.Nodes()
      modifies this, shape.Nodes()
      ensures Valid() && shape.Nodes() == old(shape.Nodes()) - {node0}
      ensures Contents() == old(Contents()) - {old(node0.key)}
    {
      ghost var whole :| shape.IsRB(whole);
      ghost var path0, t := Locate(shape, node0);
      Focus(path0, t);
      var node, parent, red;
      ghost var path, c, h;
      node, parent, red, path, c, h := Unlink(node0, path0, t, whole);
      if red {
        whole := CloseRB(path, c, h);
        return;
      }
      Focus(path, c);
      if node != null && node.red {
        whole := CloseRB(path, c.(red := false), h);
        Paint(node, false, path, c);
        return;
      }
      FixAfterRemove(node, parent, path, c, h);
    }
  }
}
