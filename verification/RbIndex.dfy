module RbIndex {
  import opened RbTree

  class Index {
    var root: int
    var links: Links

    constructor (size: nat)
      ensures root == -1 && |links| == size
    {
      root := -1;
      links := seq(size, _ => Link(false, -1, -1, -1));
    }

    /** A node that may be there gets another parent. */
    static method Hang(m: Links, child: int, node: int) returns (n: Links)
      requires child < |m|
      ensures |n| == |m| && (child >= 0 ==> n[child] == m[child].(parent := node))
      ensures forall o :: 0 <= o < |m| && o != child ==> n[o] == m[o]
    {
      n := m;
      if child >= 0 {
        n := n[child := n[child].(parent := node)];
      }
    }

    /** The parent of a node takes another one in its place. */
    static method Adopt(m: Links, parent: int, node: int, other: int) returns (n: Links)
      requires 0 <= parent < |m| && node >= 0
      ensures |n| == |m| && n[parent] == if m[parent].left == node then m[parent].(left := other) else m[parent].(right := other)
      ensures forall o :: 0 <= o < |m| && o != parent ==> n[o] == m[o]
    {
      if m[parent].left >= 0 && node == m[parent].left {
        n := m[parent := m[parent].(left := other)];
      } else {
        n := m[parent := m[parent].(right := other)];
      }
    }

    method LeftRt(oldApex: int, ghost c: Ctx, ghost t: Tree)
      requires Rep(links, root, c, t)
      requires t.Node? && t.right.Node? && t.off == oldApex
      modifies this
      ensures Rep(links, root, c, RotateLeft(t))
      ensures |links| == |old(links)|
    {
      hide Rep, RotateLeft;
      LeftRtSite(links, root, c, t);
      var m := links;
      var newApex := m[oldApex].right;
      assert newApex >= 0;  // the new apex exists
      m := m[oldApex := m[oldApex].(right := m[newApex].left)];
      var child := m[newApex].left;
      m := Hang(m, child, oldApex);
      m := m[newApex := m[newApex].(parent := m[oldApex].parent)];
      var parent := m[oldApex].parent;
      if parent < 0 {
        root := newApex;
      } else {
        m := Adopt(m, parent, oldApex, newApex);
      }
      m := m[newApex := m[newApex].(left := oldApex)];
      m := m[oldApex := m[oldApex].(parent := newApex)];
      assert m[oldApex] == Link(t.black, newApex, RootOff(t.left), child);
      links := m;
      RotatedLeftRep(old(links), m, old(root), root, c, t);
    }

    method RightRt(oldApex: int, ghost c: Ctx, ghost t: Tree)
      requires Rep(links, root, c, t)
      requires t.Node? && t.left.Node? && t.off == oldApex
      modifies this
      ensures Rep(links, root, c, RotateRight(t))
      ensures |links| == |old(links)|
    {
      hide Rep, RotateRight;
      RightRtSite(links, root, c, t);
      var m := links;
      var newApex := m[oldApex].left;
      assert newApex >= 0;  // the new apex exists
      m := m[oldApex := m[oldApex].(left := m[newApex].right)];
      var child := m[newApex].right;
      m := Hang(m, child, oldApex);
      m := m[newApex := m[newApex].(parent := m[oldApex].parent)];
      var parent := m[oldApex].parent;
      if parent < 0 {
        root := newApex;
      } else {
        m := Adopt(m, parent, oldApex, newApex);
      }
      m := m[newApex := m[newApex].(right := oldApex)];
      m := m[oldApex := m[oldApex].(parent := newApex)];
      assert m[oldApex] == Link(t.black, newApex, child, RootOff(t.right));
      links := m;
      RotatedRightRep(old(links), m, old(root), root, c, t);
    }

    method SetColor(node: int, black: bool, ghost c: Ctx, ghost t: Tree)
      requires Rep(links, root, c, t) && t.Node? && t.off == node
      modifies this`links
      ensures Rep(links, root, c, t.(black := black))
      ensures |links| == |old(links)|
    {
      PaintedRep(links, root, c, t, black);
      links := links[node := links[node].(black := black)];
    }

    /** The rotation branch of the loop when the parent is a left child. */
    method InsRotateRight(node: int, parent0: int, gparent: int, ghost c: Ctx, ghost t: Tree) returns (parent: int)
      requires Rep(links, root, c, t) && !c.Top? && c.up.InLeft? && t.Node? && !t.black && !c.black
      requires node == t.off && parent0 == c.off && gparent == c.up.off
      modifies this
      ensures Rep(links, root, c.up.up, Rotated(c, t)) && parent == Rotated(c, t).off
      ensures |links| == |old(links)|
    {
      hide Rep;
      RepNode(links, root, c, t);
      RepUp(links, root, c, t);
      parent := parent0;
      ghost var p, up := Above(c, t), c.up;
      RepNode(links, root, up, p);
      if links[parent].right >= 0 && node == links[parent].right {
        LeftRt(parent, up, p);
        p := RotateLeft(p);
        parent := node;
      }
      SetColor(parent, true, up, p);
      p := p.(black := true);
      RepUp(links, root, up, p);
      SetColor(gparent, false, up.up, Above(up, p));
      RightRt(gparent, up.up, Above(up, p).(black := false));
    }

    /** The rotation branch of the loop when the parent is a right child. */
    method InsRotateLeft(node: int, parent0: int, gparent: int, ghost c: Ctx, ghost t: Tree) returns (parent: int)
      requires Rep(links, root, c, t) && !c.Top? && c.up.InRight? && t.Node? && !t.black && !c.black
      requires node == t.off && parent0 == c.off && gparent == c.up.off
      modifies this
      ensures Rep(links, root, c.up.up, Rotated(c, t)) && parent == Rotated(c, t).off
      ensures |links| == |old(links)|
    {
      hide Rep;
      RepNode(links, root, c, t);
      RepUp(links, root, c, t);
      parent := parent0;
      ghost var p, up := Above(c, t), c.up;
      RepNode(links, root, up, p);
      if links[parent].left >= 0 && node == links[parent].left {
        RightRt(parent, up, p);
        p := RotateRight(p);
        parent := node;
      }
      SetColor(parent, true, up, p);
      p := p.(black := true);
      RepUp(links, root, up, p);
      SetColor(gparent, false, up.up, Above(up, p));
      LeftRt(gparent, up.up, Above(up, p).(black := false));
    }

    method InsRebalance(node: int, ghost c0: Ctx, ghost t0: Tree) returns (ghost t': Tree)
      requires Rep(links, root, c0, t0) && Inserting(c0, t0) && t0.off == node
      modifies this
      ensures Rep(links, root, Top, t') && Balanced(Top, t')
      ensures SameOrder(t', Plug(c0, t0))
      ensures |links| == |old(links)|
      ensures c0.Top? || c0.black ==> Plug(c0, t0).Node? && t' == Plug(c0, t0).(black := true)
    {
      hide Rep, Walk, RedBlack, CtxOk, BlackHeight, Plug;
      RepNode(links, root, c0, t0);
      PlugNode(c0, t0);
      var new' := node;
      var parent := links[node].parent;
      if !c0.Top? { RepUp(links, root, c0, t0); RepNode(links, root, c0.up, Above(c0, t0)); }
      ghost var c, t := c0, t0;
      while parent >= 0 && !links[parent].black
        invariant Rep(links, root, c, t) && t.Node? && parent < |links| && |links| == |old(links)|
        invariant Pending(c, t, new', parent) || (0 <= parent && links[parent].black && Balanced(c, t))
        invariant SameOrder(Plug(c, t), Plug(c0, t0))
        invariant c0.Top? || c0.black ==> c == c0 && t == t0 && parent == ParentOff(c0) && (parent >= 0 ==> links[parent].black)
        decreases c
      {
        new', parent, c, t := InsStep(new', parent, c, t);
      }
      RepNode(links, root, c, t);
      InsertedOk(c, t);
      RepPlug(links, root, c, t);
      t' := Plug(c, t);
      RepNode(links, root, Top, t');
      SetColor(root, true, Top, t');
      t' := t'.(black := true);
    }

    /** The focus may be red below a red parent. */
    ghost predicate Pending(c: Ctx, t: Tree, node: int, parent: int) {
      parent == ParentOff(c) && Inserting(c, t) && node == t.off
    }

    /** One round of the insertion loop: the fault moves two levels up, or is gone. */
    method InsStep(new0: int, parent0: int, ghost c: Ctx, ghost t: Tree) returns (new': int, parent: int, ghost d: Ctx, ghost u: Tree)
      requires Rep(links, root, c, t) && Pending(c, t, new0, parent0) && 0 <= parent0 < |links| && !links[parent0].black
      modifies this
      ensures Rep(links, root, d, u) && u.Node? && parent < |links| && |links| == |old(links)| && !c.Top? && !c.black && d < c
      ensures Pending(d, u, new', parent) || (0 <= parent && links[parent].black && Balanced(d, u))
      ensures SameOrder(Plug(d, u), Plug(c, t))
    {
      hide Rep, Walk, RedBlack, CtxOk, BlackHeight, Plug;
      new', parent := new0, parent0;
      RepUp(links, root, c, t);
      ghost var p, up := Above(c, t), c.up;
      RepNode(links, root, up, p);
      RedHasGrandparent(c, t);
      var gparent := links[parent].parent;
      assert gparent == up.off >= 0;  // the grandparent exists
      RepUp(links, root, up, p);
      RepNode(links, root, up.up, Above(up, p));
      var gpLeft := links[gparent].left;
      if parent == gpLeft {
        var uncle := links[gparent].right;
        if uncle >= 0 && !links[uncle].black {
          Recolour(parent, uncle, gparent, c, t);
          RecolouredOk(c, t);
          parent := links[gparent].parent;
          new' := gparent;
          u := Recoloured(c, t);
        } else {
          parent := InsRotateRight(new', parent, gparent, c, t);
          RotatedOk(c, t);
          u := Rotated(c, t);
        }
      } else {
        var uncle := gpLeft;
        if uncle >= 0 && !links[uncle].black {
          Recolour(parent, uncle, gparent, c, t);
          RecolouredOk(c, t);
          parent := links[gparent].parent;
          new' := gparent;
          u := Recoloured(c, t);
        } else {
          parent := InsRotateLeft(new', parent, gparent, c, t);
          RotatedOk(c, t);
          u := Rotated(c, t);
        }
      }
      d := up.up;
      RepNode(links, root, d, u);
    }

    method Recolour(parent: int, uncle: int, gparent: int, ghost c: Ctx, ghost t: Tree)
      requires Rep(links, root, c, t) && !c.Top? && !c.up.Top? && c.up.sib.Node?
      requires parent == c.off && gparent == c.up.off && uncle == c.up.sib.off
      modifies this`links
      ensures Rep(links, root, c.up.up, Recoloured(c, t))
      ensures 0 <= gparent < |links| && links[gparent].parent == ParentOff(c.up.up)
      ensures |links| == |old(links)|
    {
      hide Rep;
      ghost var up := c.up;
      RepUp(links, root, c, t);
      SetColor(parent, true, up, Above(c, t));
      ghost var p := Above(c.(black := true), t);
      ghost var cu := if up.InLeft? then InRight(up.off, up.black, up.up, p) else InLeft(up.off, up.black, up.up, p);
      RepUp(links, root, up, p);
      RepUp(links, root, cu, up.sib);
      SetColor(uncle, true, cu, up.sib);
      RepUp(links, root, cu, up.sib.(black := true));
      ghost var g := Above(cu, up.sib.(black := true));
      SetColor(gparent, false, up.up, g);
      RepNode(links, root, up.up, Recoloured(c, t));
    }

    /** The focus is a left child and its brother is red. */
    method LiftLeftCase(parent: int, brother0: int, ghost c: Ctx, ghost t: Tree) returns (brother: int)
      requires Rep(links, root, c, t) && c.InLeft? && c.sib.Node? && Lifted(c).sib.Node?
      requires parent == c.off && brother0 == c.sib.off
      modifies this
      ensures Rep(links, root, Lifted(c), t) && brother == Lifted(c).sib.off
      ensures |links| == |old(links)|
    {
      hide Rep;
      ghost var cb, b := InRight(c.off, c.black, c.up, t), c.sib;
      RepUp(links, root, c, t);
      RepUp(links, root, cb, b);
      SetColor(brother0, true, cb, b);
      RepUp(links, root, cb, b.(black := true));
      SetColor(parent, false, c.up, Above(cb, b.(black := true)));
      LeftRt(parent, c.up, Above(InRight(c.off, false, c.up, t), b.(black := true)));
      RepUp(links, root, Lifted(c).up, Above(Lifted(c), t));
      RepUp(links, root, Lifted(c), t);
      RepNode(links, root, Lifted(c), t);
      brother := links[parent].right;
      assert brother >= 0;  // the new brother exists
    }

    /** The focus is a right child and its brother is red. */
    method LiftRightCase(parent: int, brother0: int, ghost c: Ctx, ghost t: Tree) returns (brother: int)
      requires Rep(links, root, c, t) && c.InRight? && c.sib.Node? && Lifted(c).sib.Node?
      requires parent == c.off && brother0 == c.sib.off
      modifies this
      ensures Rep(links, root, Lifted(c), t) && brother == Lifted(c).sib.off
      ensures |links| == |old(links)|
    {
      hide Rep;
      ghost var cb, b := InLeft(c.off, c.black, c.up, t), c.sib;
      RepUp(links, root, c, t);
      RepUp(links, root, cb, b);
      SetColor(brother0, true, cb, b);
      RepUp(links, root, cb, b.(black := true));
      SetColor(parent, false, c.up, Above(cb, b.(black := true)));
      RightRt(parent, c.up, Above(InLeft(c.off, false, c.up, t), b.(black := true)));
      RepUp(links, root, Lifted(c).up, Above(Lifted(c), t));
      RepUp(links, root, Lifted(c), t);
      RepNode(links, root, Lifted(c), t);
      brother := links[parent].left;
      assert brother >= 0;  // the new brother exists
    }

    /** The focus is a left child and its black brother has a red child. */
    method RestoreLeftCase(parent: int, brother0: int, ghost c: Ctx, ghost t: Tree)
      requires Rep(links, root, c, t) && c.InLeft? && c.sib.Node? && c.sib.black
      requires !IsBlack(c.sib.left) || !IsBlack(c.sib.right)
      requires parent == c.off && brother0 == c.sib.off
      modifies this
      ensures Rep(links, root, c.up, Restored(c, t))
      ensures |links| == |old(links)|
    {
      hide Rep;
      ghost var cb, b := InRight(c.off, c.black, c.up, t), c.sib;
      RepUp(links, root, c, t);
      RepUp(links, root, cb, b);
      RepNode(links, root, cb, b);
      RepUp(links, root, InRight(b.off, b.black, cb, b.left), b.right);
      RepNode(links, root, InRight(b.off, b.black, cb, b.left), b.right);
      var brother, lNeph, rNeph := brother0, links[brother0].left, links[brother0].right;
      if rNeph < 0 || links[rNeph].black {
        ghost var cl := InLeft(b.off, b.black, cb, b.right);
        RepUp(links, root, cl, b.left);
        SetColor(lNeph, true, cl, b.left);
        RepUp(links, root, cl, b.left.(black := true));
        SetColor(brother, false, cb, b.(left := b.left.(black := true)));
        b := b.(left := b.left.(black := true), black := false);
        RightRt(brother, cb, b);
        b := RotateRight(b);
        rNeph := brother;
        RepNode(links, root, cb, b);
        brother := links[parent].right;
      }
      RepNode(links, root, cb, b);
      SetColor(brother, links[parent].black, cb, b);
      b := b.(black := c.black);
      RepUp(links, root, cb, b);
      SetColor(parent, true, c.up, Above(cb, b));
      cb := InRight(c.off, true, c.up, t);
      RepUp(links, root, cb, b);
      RepUp(links, root, InRight(b.off, b.black, cb, b.left), b.right);
      SetColor(rNeph, true, InRight(b.off, b.black, cb, b.left), b.right);
      RepUp(links, root, InRight(b.off, b.black, cb, b.left), b.right.(black := true));
      b := b.(right := b.right.(black := true));
      RepUp(links, root, cb, b);
      LeftRt(parent, c.up, Above(cb, b));
    }

    /** The focus is a right child and its black brother has a red child. */
    method RestoreRightCase(parent: int, brother0: int, ghost c: Ctx, ghost t: Tree)
      requires Rep(links, root, c, t) && c.InRight? && c.sib.Node? && c.sib.black
      requires !IsBlack(c.sib.right) || !IsBlack(c.sib.left)
      requires parent == c.off && brother0 == c.sib.off
      modifies this
      ensures Rep(links, root, c.up, Restored(c, t))
      ensures |links| == |old(links)|
    {
      hide Rep;
      ghost var cb, b := InLeft(c.off, c.black, c.up, t), c.sib;
      RepUp(links, root, c, t);
      RepUp(links, root, cb, b);
      RepNode(links, root, cb, b);
      RepUp(links, root, InLeft(b.off, b.black, cb, b.right), b.left);
      RepNode(links, root, InLeft(b.off, b.black, cb, b.right), b.left);
      var brother, rNeph, lNeph := brother0, links[brother0].right, links[brother0].left;
      if lNeph < 0 || links[lNeph].black {
        ghost var cl := InRight(b.off, b.black, cb, b.left);
        RepUp(links, root, cl, b.right);
        SetColor(rNeph, true, cl, b.right);
        RepUp(links, root, cl, b.right.(black := true));
        SetColor(brother, false, cb, b.(right := b.right.(black := true)));
        b := b.(right := b.right.(black := true), black := false);
        LeftRt(brother, cb, b);
        b := RotateLeft(b);
        lNeph := brother;
        RepNode(links, root, cb, b);
        brother := links[parent].left;
      }
      RepNode(links, root, cb, b);
      SetColor(brother, links[parent].black, cb, b);
      b := b.(black := c.black);
      RepUp(links, root, cb, b);
      SetColor(parent, true, c.up, Above(cb, b));
      cb := InLeft(c.off, true, c.up, t);
      RepUp(links, root, cb, b);
      RepUp(links, root, InLeft(b.off, b.black, cb, b.right), b.left);
      SetColor(lNeph, true, InLeft(b.off, b.black, cb, b.right), b.left);
      RepUp(links, root, InLeft(b.off, b.black, cb, b.right), b.left.(black := true));
      b := b.(left := b.left.(black := true));
      RepUp(links, root, cb, b);
      RightRt(parent, c.up, Above(cb, b));
    }

    method LowerBrother(brother: int, ghost c: Ctx, ghost t: Tree)
      requires Rep(links, root, c, t) && !c.Top? && c.sib.Node? && brother == c.sib.off
      modifies this`links
      ensures Rep(links, root, c.up, Lowered(c, t))
      ensures |links| == |old(links)|
    {
      hide Rep;
      ghost var cb := if c.InLeft? then InRight(c.off, c.black, c.up, t) else InLeft(c.off, c.black, c.up, t);
      RepUp(links, root, c, t);
      RepUp(links, root, cb, c.sib);
      SetColor(brother, false, cb, c.sib);
      RepUp(links, root, cb, c.sib.(black := false));
    }

    /** One round of the deletion loop with the focus as left child. */
    method DelStepLeft(parent0: int, ghost c0: Ctx, ghost t: Tree)
      returns (nchild: int, parent: int, ghost c: Ctx, ghost t': Tree, ghost done: bool)
      requires Rep(links, root, c0, t) && Deleting(c0, t) && c0.InLeft? && IsBlack(t) && parent0 == c0.off
      modifies this
      ensures Rep(links, root, c, t') && t'.Node? && |links| == |old(links)|
      ensures done ==> Balanced(c, t') && nchild == root
      ensures !done ==> Deleting(c, t') && nchild == RootOff(t') >= 0 && parent == ParentOff(c)
      ensures done || !IsBlack(t') || Depth(c) < Depth(c0)
      ensures SameOrder(Plug(c, t'), Plug(c0, t))
    {
      hide Rep, Walk, RedBlack, CtxOk, BlackHeight, Plug, Restored;
      RepNode(links, root, c0, t);
      BrotherExists(c0, t);
      c, parent := c0, parent0;
      assert links[parent].right >= 0;  // the brother exists
      var brother := links[parent].right;
      if !links[brother].black {
        LiftedOk(c, t);
        brother := LiftLeftCase(parent, brother, c, t);
        c := Lifted(c);
      }
      RepBrother(links, root, c, t);
      var lNeph, rNeph := links[brother].left, links[brother].right;
      if (lNeph < 0 || links[lNeph].black) && (rNeph < 0 || links[rNeph].black) {
        LoweredOk(c, t);
        LowerBrother(brother, c, t);
        c, t', done := c.up, Lowered(c, t), false;
        RepNode(links, root, c, t');
        nchild := parent;
        parent := links[nchild].parent;
      } else {
        RestoredOk(c, t);
        RestoreLeftCase(parent, brother, c, t);
        c, t', done := c.up, Restored(c, t), true;
        nchild := root;
      }
    }

    /** One round of the deletion loop with the focus as right child. */
    method DelStepRight(parent0: int, ghost c0: Ctx, ghost t: Tree)
      returns (nchild: int, parent: int, ghost c: Ctx, ghost t': Tree, ghost done: bool)
      requires Rep(links, root, c0, t) && Deleting(c0, t) && c0.InRight? && IsBlack(t) && parent0 == c0.off
      modifies this
      ensures Rep(links, root, c, t') && t'.Node? && |links| == |old(links)|
      ensures done ==> Balanced(c, t') && nchild == root
      ensures !done ==> Deleting(c, t') && nchild == RootOff(t') >= 0 && parent == ParentOff(c)
      ensures done || !IsBlack(t') || Depth(c) < Depth(c0)
      ensures SameOrder(Plug(c, t'), Plug(c0, t))
    {
      hide Rep, Walk, RedBlack, CtxOk, BlackHeight, Plug, Restored;
      RepNode(links, root, c0, t);
      BrotherExists(c0, t);
      c, parent := c0, parent0;
      assert links[parent].left >= 0;  // the brother exists
      var brother := links[parent].left;
      if !links[brother].black {
        LiftedOk(c, t);
        brother := LiftRightCase(parent, brother, c, t);
        c := Lifted(c);
      }
      RepBrother(links, root, c, t);
      var lNeph, rNeph := links[brother].left, links[brother].right;
      if (lNeph < 0 || links[lNeph].black) && (rNeph < 0 || links[rNeph].black) {
        LoweredOk(c, t);
        LowerBrother(brother, c, t);
        c, t', done := c.up, Lowered(c, t), false;
        RepNode(links, root, c, t');
        nchild := parent;
        parent := links[nchild].parent;
      } else {
        RestoredOk(c, t);
        RestoreRightCase(parent, brother, c, t);
        c, t', done := c.up, Restored(c, t), true;
        nchild := root;
      }
    }

    method DelRebalance(nchild0: int, parent0: int, ghost c0: Ctx, ghost t0: Tree) returns (ghost t': Tree)
      requires Rep(links, root, c0, t0) && Deleting(c0, t0) && root >= 0
      requires nchild0 == RootOff(t0) && parent0 == ParentOff(c0)
      modifies this
      ensures Rep(links, root, Top, t') && Balanced(Top, t')
      ensures SameOrder(t', Plug(c0, t0))
      ensures |links| == |old(links)|
    {
      hide Rep, RedBlack, CtxOk, BlackHeight;
      var nchild, parent := nchild0, parent0;
      ghost var c, t, done := c0, t0, false;
      RepNode(links, root, c, t);
      while nchild < 0 || (nchild != root && links[nchild].black)
        invariant Rep(links, root, c, t) && -1 < root < |links| == |old(links)|
        invariant done ==> Balanced(c, t) && nchild == root
        invariant !done ==> Deleting(c, t) && nchild == RootOff(t) < |links| && parent == ParentOff(c)
        invariant SameOrder(Plug(c, t), Plug(c0, t0))
        decreases if done || !IsBlack(t) then 0 else 1 + Depth(c)
      {
        RepNode(links, root, c, t);
        BrotherExists(c, t);
        if nchild == links[parent].left {
          nchild, parent, c, t, done := DelStepLeft(parent, c, t);
        } else {
          nchild, parent, c, t, done := DelStepRight(parent, c, t);
        }
        RepNode(links, root, c, t);
      }
      RepNode(links, root, c, t);
      ghost var top := Plug(c, t);
      if done {
        PlugRootBlack(c, t);
        RepPlug(links, root, c, t);
        RepNode(links, root, Top, top);
        c, t := Top, top;
      } else {
        DeletedOk(c, t);
      }
      SetColor(nchild, true, c, t);
      PlugSameOrder(c, t.(black := true), t);
      t := t.(black := true);
      RepPlug(links, root, c, t);
      BalancedPlug(c, t);
      t' := Plug(c, t);
    }

    /** Leftmost node below `node`. */
    method Min(node: int, ghost c: Ctx, ghost t: Tree) returns (r: int, ghost d: Ctx, ghost u: Tree)
      requires Rep(links, root, c, t) && t.Node? && node == t.off
      ensures LeftSpine(d) && Rep(links, root, Append(d, c), u) && Plug(d, u) == t
      ensures u.Node? && u.left == Leaf && r == u.off
    {
      hide Rep;
      r, d, u := node, Top, t;
      RepNode(links, root, c, t);
      while links[r].left >= 0
        invariant LeftSpine(d) && Rep(links, root, Append(d, c), u) && Plug(d, u) == t
        invariant 0 <= r < |links| && u.Node? && r == u.off && links[r].left == RootOff(u.left)
        decreases u
      {
        r := links[r].left;
        d, u := InLeft(u.off, u.black, d, u.right), u.left;
        RepUp(links, root, Append(d, c), u);
        RepNode(links, root, Append(d, c), u);
      }
      RepNode(links, root, Append(d, c), u);
    }

    method Replace(old': int, new': int, ghost c: Ctx)
      requires 0 <= old' < |links| && new' < |links| && links[old'].parent == ParentOff(c)
      requires c.Top? || 0 <= c.off < |links|
      requires c.InLeft? ==> links[c.off].left == old'
      requires c.InRight? ==> links[c.off].right == old' && links[c.off].left != old'
      modifies this
      ensures links == Replaced(old(links), c, new')
      ensures root == if c.Top? then new' else old(root)
    {
      var parent := links[old'].parent;
      if parent < 0 {
        root := new';
      } else if links[parent].left >= 0 && old' == links[parent].left {
        links := links[parent := links[parent].(left := new')];
      } else {
        links := links[parent := links[parent].(right := new')];
      }
      if new' >= 0 {
        links := links[new' := links[new'].(parent := parent)];
      }
    }

    /** Link `node` as a red leaf at the place found by a search, then rebalance. */
    method Add(node: int, parent: int, toLeft: bool, ghost c: Ctx) returns (ghost t': Tree)
      requires Rep(links, root, c, Leaf) && Balanced(c, Leaf)
      requires parent == ParentOff(c) && (toLeft <==> c.InLeft?)
      requires 0 <= node < |links| && node !in CtxOffs(c)
      modifies this
      ensures Rep(links, root, Top, t') && Balanced(Top, t') && |links| == |old(links)|
      ensures Inorder(t') == Before(c) + [node] + After(c)
      ensures c.Top? || c.black ==> Plug(c, Node(node, false, Leaf, Leaf)).Node? && t' == Plug(c, Node(node, false, Leaf, Leaf)).(black := true)
    {
      RepNode(links, root, c, Leaf);
      assert !c.Top? ==> c.off in CtxOffs(c);
      links := links[node := links[node].(parent := parent)];
      if parent < 0 {
        assert root < 0;  // the tree is empty
        root := node;
      } else if toLeft {
        links := links[parent := links[parent].(left := node)];
      } else {
        links := links[parent := links[parent].(right := node)];
      }
      links := links[node := links[node].(black := false, left := -1, right := -1)];
      ghost var t := Node(node, false, Leaf, Leaf);
      assert Substituted(old(links), links, c, -1, node, false, Leaf, Leaf);
      assert root == RootBelow(c, node);
      SubstitutedRep(old(links), links, c, -1, node, false, Leaf, Leaf, -1, root);
      assert Inserting(c, t);
      assert Inorder(t) == [node] by { assert Walk(Leaf, [node] + Walk(Leaf, [])) == [node]; }
      t' := InsRebalance(node, c, t);
      PlugInorder(c, t);
      assert Inorder(t') == Inorder(Plug(c, t));
    }

    /** The end of the two-children case: `sv` takes the parent, left child and colour of `node`. */
    method TakeOver(node: int, sv: int, ghost c: Ctx, ghost black: bool, ghost l: Tree, ghost r: Tree, ghost r0: Tree)
      requires Pieces(links, c, node, l, r, sv, sv) && Held(links, c, node, black, l, r0) && l.Node?
      requires sv != node && links[sv].right == RootOff(r)
      requires root == RootBelow(c, node)
      modifies this
      ensures Rep(links, root, c, Node(sv, black, l, r))
      ensures |links| == |old(links)|
    {
      ghost var m := links;
      TakeOverSite(m, c, node, black, l, r, r0, sv);
      hide Pieces, Rep;
      Replace(node, sv, c);
      var nLeft := links[node].left;
      links := links[nLeft := links[nLeft].(parent := sv)];
      links := links[sv := links[sv].(left := links[node].left)];
      links := links[sv := links[sv].(black := links[node].black)];
      TakenOver(m, links, c, node, sv, black, l, r, r0);
      assert root == RootBelow(c, sv);
      SubstitutedRep(m, links, c, node, sv, black, l, r, sv, root);
    }

    /** Cut the successor out of the right subtree of `t`. */
    method CutOut(sv: int, nchild: int, ghost c: Ctx, ghost t: Tree, ghost spine: Ctx, ghost sv': Tree)
      requires Rep(links, root, c, t) && t.Node?
      requires t.right == Plug(spine, sv') && !spine.Top? && sv'.Node? && sv'.left == Leaf
      requires sv == sv'.off && nchild == RootOff(sv'.right)
      modifies this
      ensures Rep(links, root, c, Node(t.off, t.black, t.left, Plug(spine, sv'.right))) && |links| == |old(links)|
    {
      hide Rep, Offs, CtxOffs, Plug;
      ghost var cr, u := InRight(t.off, t.black, c, t.left), sv'.right;
      RepUp(links, root, cr, t.right);
      RepAppend(links, root, spine, cr, sv');
      RepNode(links, root, Append(spine, cr), sv');
      SplicedRep(links, root, Append(spine, cr), sv', u);
      Replace(sv, nchild, Append(spine, cr));
      RepAppend(links, root, spine, cr, u);
      RepUp(links, root, cr, Plug(spine, u));
    }

    /** The successor `sv` lies below the right child of `node`: cut it out and hand it
        the right subtree. */
    method CutSuccessor(node: int, sv: int, nchild: int, ghost c: Ctx, ghost t: Tree, ghost spine: Ctx, ghost sv': Tree)
      requires Rep(links, root, c, t) && t.Node? && node == t.off
      requires t.right == Plug(spine, sv') && !spine.Top? && sv'.Node? && sv'.left == Leaf
      requires sv == sv'.off && nchild == RootOff(sv'.right)
      modifies this
      ensures Pieces(links, c, node, t.left, Plug(spine, sv'.right), sv, sv)
      ensures Held(links, c, node, t.black, t.left, Plug(spine, sv'.right))
      ensures links[sv].right == RootOff(Plug(spine, sv'.right)) && root == RootBelow(c, node)
      ensures |links| == |old(links)|
    {
      hide Rep, Pieces, Offs, CtxOffs;
      ghost var u := sv'.right;
      SuccessorSpare(links, root, c, t, spine, sv');
      CutRange(links, root, c, t, spine, sv');
      CutOut(sv, nchild, c, t, spine, sv');
      PlugDeep(spine, u);
      ghost var m := links;
      FocusPieces(m, root, c, Node(node, t.black, t.left, Plug(spine, u)), sv);
      var nRight := links[node].right;
      links := links[nRight := links[nRight].(parent := sv)];
      links := links[sv := links[sv].(right := links[node].right)];
      HandOver(m, links, c, node, t.left, Plug(spine, u), sv);
    }

    /** Unlink `node`, whose two children are both present: its successor takes its place. */
    method EraseInner(node: int, ghost c: Ctx, ghost t: Tree)
      returns (nchild: int, parent: int, svBlack: bool, ghost d: Ctx, ghost u: Tree, ghost spine: Ctx, ghost sv': Tree)
      requires Rep(links, root, c, t) && t.Node? && node == t.off && t.left.Node? && t.right.Node?
      modifies this
      ensures LeftSpine(spine) && sv'.Node? && sv'.left == Leaf && sv'.right == u && svBlack == sv'.black
      ensures t.right == Plug(spine, sv')
      ensures d == Append(spine, InRight(sv'.off, t.black, c, t.left))
      ensures Rep(links, root, d, u) && nchild == RootOff(u) && parent == ParentOff(d)
      ensures |links| == |old(links)|
    {
      hide Rep, Pieces, Offs, CtxOffs, Held;
      ghost var cr := InRight(t.off, t.black, c, t.left);
      RepNode(links, root, c, t);
      RepUp(links, root, cr, t.right);
      var sv;
      sv, spine, sv' := Min(links[node].right, cr, t.right);
      RepNode(links, root, Append(spine, cr), sv');
      SuccessorSpare(links, root, c, t, spine, sv');
      svBlack := links[sv].black;
      nchild := links[sv].right;
      u := sv'.right;
      if node != links[sv].parent {
        parent := links[sv].parent;
        CutSuccessor(node, sv, nchild, c, t, spine, sv');
      } else {
        parent := sv;
        DirectPieces(links, root, c, t);
      }
      ghost var r, cs := Plug(spine, u), InRight(sv, t.black, c, t.left);
      TakeOver(node, sv, c, t.black, t.left, r, if spine.Top? then t.right else r);
      d := Append(spine, cs);
      RepUp(links, root, cs, r);
      RepAppend(links, root, spine, cs, u);
    }

    /** Unlink `node`, whichever children it has; `u` is left without a black node above it if a black one
        went away. */
    method Unlink(node: int, ghost c: Ctx, ghost n: Tree) returns (nchild: int, parent: int, svBlack: bool, ghost d: Ctx, ghost u: Tree)
      requires Rep(links, root, c, n) && Balanced(c, n) && n.Node? && node == n.off && Proper(Plug(c, n))
      modifies this
      ensures Rep(links, root, d, u) && nchild == RootOff(u) && parent == ParentOff(d) && |links| == |old(links)|
      ensures if svBlack then Deleting(d, u) else Balanced(d, u)
      ensures Inorder(Plug(d, u)) == Without(Inorder(Plug(c, n)), node)
      ensures Promotes(n) ==> !svBlack && d == InRight(n.right.off, n.black, c, n.left) && u == n.right.right
    {
      hide Rep, Balanced, Deleting, Inorder, Without, Offs, Plug, Append;
      RepNode(links, root, c, n);
      parent, svBlack := links[node].parent, links[node].black;
      d, u := c, Leaf;
      if links[node].left < 0 {
        nchild, u := links[node].right, n.right;
        SplicedRep(links, root, c, n, u);
        SplicedOk(c, n, u);
        SplicedOrder(c, n, u);
        Replace(node, nchild, c);
      } else if links[node].right < 0 {
        nchild, u := links[node].left, n.left;
        SplicedRep(links, root, c, n, u);
        SplicedOk(c, n, u);
        SplicedOrder(c, n, u);
        Replace(node, nchild, c);
      } else {
        ghost var spine, sv';
        nchild, parent, svBlack, d, u, spine, sv' := EraseInner(node, c, n);
        SuccessorOk(c, n, spine, sv');
        SuccessorOrder(c, n, spine, sv');
        if Promotes(n) { DirectSuccessor(n, spine, sv', InRight(sv'.off, n.black, c, n.left)); }
      }
    }

    /** Remove `node` from the tree. */
    method Erase(node: int, ghost t: Tree) returns (ghost t': Tree)
      requires Rep(links, root, Top, t) && Balanced(Top, t) && node in Offs(t)
      modifies this
      ensures Rep(links, root, Top, t') && Balanced(Top, t') && |links| == |old(links)|
      ensures Inorder(t') == Without(Inorder(t), node)
      ensures node == t.off && Promotes(t) ==> t' == Node(t.right.off, t.black, t.left, t.right.right)
    {
      hide Rep, Balanced, Deleting, Walk, Inorder, Without, Offs, Proper;
      ghost var (c, n) := PathTo(t, node, Top);
      RepPlug(links, root, c, n);
      BalancedPlug(c, n);
      assert Proper(Plug(c, n)) by { RepProper(links, root, t); }
      var nchild, parent, svBlack;
      ghost var d, u;
      nchild, parent, svBlack, d, u := Unlink(node, c, n);
      RepNode(links, root, d, u);
      if svBlack && root >= 0 {
        t' := DelRebalance(nchild, parent, d, u);
        SameInorder(t', Plug(d, u));
      } else {
        if svBlack { EmptyBalanced(d, u); }
        RepPlug(links, root, d, u);
        BalancedPlug(d, u);
        t' := Plug(d, u);
      }
    }
  }

  lemma {:induction false} CutRange(m: Links, root: int, c: Ctx, t: Tree, spine: Ctx, sv: Tree)
    requires Rep(m, root, c, t) && t.Node? && t.right == Plug(spine, sv) && sv.Node?
    ensures 0 <= sv.off < |m|
  {
    hide Rep, Plug;
    var cr := InRight(t.off, t.black, c, t.left);
    RepUp(m, root, cr, t.right);
    RepAppend(m, root, spine, cr, sv);
    RepNode(m, root, Append(spine, cr), sv);
  }

  /** A node with two children whose right one is red and has nothing on its left: it is promoted, and no
      colour is missing then. */
  predicate Promotes(t: Tree) {
    t.Node? && t.left.Node? && t.right.Node? && t.right.left == Leaf && !t.right.black
  }

  lemma {:induction false} DirectSuccessor(t: Tree, spine: Ctx, sv: Tree, c: Ctx)
    requires Promotes(t) && t.right == Plug(spine, sv) && LeftSpine(spine) && sv.Node? && sv.left == Leaf
    ensures sv == t.right && Append(spine, c) == c
  {
    if !spine.Top? { SpineLeft(spine, sv); }
  }

  lemma {:induction false} SpineLeft(spine: Ctx, t: Tree)
    requires LeftSpine(spine) && !spine.Top? && t.Node?
    ensures Plug(spine, t).Node? && Plug(spine, t).left.Node?
    decreases spine
  {
    if !spine.up.Top? { SpineLeft(spine.up, Above(spine, t)); }
  }
}
