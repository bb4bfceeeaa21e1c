/** The red-black tree that indexes the HPACK encoder table, linked by byte offsets.

    The program stores `parent`, `left`, `right` and `color` inside each ring-buffer
    node; an offset below zero stands for "no node".  Here the link fields are a map
    from node offset to `Link`.  `Tree` and `Ctx` are the mathematical reading of that
    memory: a tree of offsets, and a path from a subtree up to the root. */
module RbTree {

  datatype Link = Link(black: bool, parent: int, left: int, right: int)

  type Links = seq<Link>

  datatype Tree = Leaf | Node(off: int, black: bool, left: Tree, right: Tree)

  /** Path from a focused subtree to the root; `sib` is the other child of each frame. */
  datatype Ctx =
    | Top
    | InLeft(off: int, black: bool, up: Ctx, sib: Tree)
    | InRight(off: int, black: bool, up: Ctx, sib: Tree)

  function Plug(c: Ctx, t: Tree): Tree {
    match c
    case Top => t
    case InLeft(o, b, up, s) => Plug(up, Node(o, b, t, s))
    case InRight(o, b, up, s) => Plug(up, Node(o, b, s, t))
  }

  function RootOff(t: Tree): int {
    if t.Leaf? then -1 else t.off
  }

  function ParentOff(c: Ctx): int {
    if c.Top? then -1 else c.off
  }

  function IsBlack(t: Tree): bool {
    t.Leaf? || t.black
  }

  // ---------------------------------------------------------------- offsets

  function Offs(t: Tree): set<int> {
    match t
    case Leaf => {}
    case Node(o, _, l, r) => {o} + Offs(l) + Offs(r)
  }

  function CtxOffs(c: Ctx): set<int> {
    match c
    case Top => {}
    case InLeft(o, _, up, s) => {o} + Offs(s) + CtxOffs(up)
    case InRight(o, _, up, s) => {o} + Offs(s) + CtxOffs(up)
  }

  /** The offsets of `t` in search order, followed by `k`. */
  function Walk(t: Tree, k: seq<int>): seq<int> {
    match t
    case Leaf => k
    case Node(o, _, l, r) => Walk(l, [o] + Walk(r, k))
  }

  function Inorder(t: Tree): seq<int> {
    Walk(t, [])
  }

  /** Both trees hold the same offsets in the same search order. */
  ghost predicate SameOrder(t: Tree, t': Tree) {
    forall k :: Walk(t, k) == Walk(t', k)
  }

  lemma {:induction false} PlugSameOrder(c: Ctx, t: Tree, t': Tree)
    requires SameOrder(t, t')
    ensures SameOrder(Plug(c, t), Plug(c, t'))
    decreases c
  {
    match c
    case Top =>
    case InLeft(o, b, up, s) => PlugSameOrder(up, Node(o, b, t, s), Node(o, b, t', s));
    case InRight(o, b, up, s) => PlugSameOrder(up, Node(o, b, s, t), Node(o, b, s, t'));
  }

  lemma {:induction false} PlugOffs(c: Ctx, t: Tree)
    ensures Offs(Plug(c, t)) == CtxOffs(c) + Offs(t)
    decreases c
  {
    match c
    case Top =>
    case InLeft(o, b, up, s) => PlugOffs(up, Node(o, b, t, s));
    case InRight(o, b, up, s) => PlugOffs(up, Node(o, b, s, t));
  }

  // ---------------------------------------------------------------- representation

  /** Every offset is non-negative and occurs once. */
  predicate Proper(t: Tree) {
    match t
    case Leaf => true
    case Node(o, _, l, r) =>
      && o >= 0 && o !in Offs(l) && o !in Offs(r) && Offs(l) !! Offs(r)
      && Proper(l) && Proper(r)
  }

  predicate ProperCtx(c: Ctx) {
    match c
    case Top => true
    case InLeft(o, _, up, s) =>
      && o >= 0 && o !in Offs(s) && o !in CtxOffs(up) && Offs(s) !! CtxOffs(up)
      && Proper(s) && ProperCtx(up)
    case InRight(o, _, up, s) =>
      && o >= 0 && o !in Offs(s) && o !in CtxOffs(up) && Offs(s) !! CtxOffs(up)
      && Proper(s) && ProperCtx(up)
  }

  /** Memory `m` holds tree `t` below parent `p`. */
  predicate Linked(m: Links, t: Tree, p: int) {
    match t
    case Leaf => true
    case Node(o, b, l, r) =>
      && 0 <= o < |m| && m[o] == Link(b, p, RootOff(l), RootOff(r))
      && Linked(m, l, o) && Linked(m, r, o)
  }

  /** Memory `m` holds the path `c` above a subtree rooted at `child`. */
  predicate LinkedCtx(m: Links, c: Ctx, child: int) {
    match c
    case Top => true
    case InLeft(o, b, up, s) =>
      && 0 <= o < |m| && m[o] == Link(b, ParentOff(up), child, RootOff(s))
      && Linked(m, s, o) && LinkedCtx(m, up, o)
    case InRight(o, b, up, s) =>
      && 0 <= o < |m| && m[o] == Link(b, ParentOff(up), RootOff(s), child)
      && Linked(m, s, o) && LinkedCtx(m, up, o)
  }

  function RootBelow(c: Ctx, child: int): int {
    match c
    case Top => child
    case InLeft(o, _, up, _) => RootBelow(up, o)
    case InRight(o, _, up, _) => RootBelow(up, o)
  }

  /** Memory `m` with root pointer `root` is exactly the tree `Plug(c, t)`,
      with consistent parent, left, right and root pointers. */
  predicate Rep(m: Links, root: int, c: Ctx, t: Tree) {
    && Proper(t) && ProperCtx(c) && Offs(t) !! CtxOffs(c)
    && Linked(m, t, ParentOff(c)) && LinkedCtx(m, c, RootOff(t))
    && root == RootBelow(c, RootOff(t))
  }

  lemma {:induction false} RepPlug(m: Links, root: int, c: Ctx, t: Tree)
    ensures Rep(m, root, c, t) <==> Rep(m, root, Top, Plug(c, t))
    decreases c
  {
    match c
    case Top =>
    case InLeft(o, b, up, s) => RepPlug(m, root, up, Node(o, b, t, s));
    case InRight(o, b, up, s) => RepPlug(m, root, up, Node(o, b, s, t));
  }

  predicate Agree(m: Links, n: Links, s: set<int>) {
    |n| == |m| && forall o :: o in s && 0 <= o < |m| ==> n[o] == m[o]
  }

  predicate SameExcept(m: Links, n: Links, changed: set<int>) {
    |n| == |m| && forall o :: 0 <= o < |m| && o !in changed ==> n[o] == m[o]
  }

  /** Memory outside a tree does not matter to it. */
  lemma {:induction false} LinkedFrame(m: Links, n: Links, t: Tree, p: int)
    requires Linked(m, t, p)
    requires Agree(m, n, Offs(t))
    ensures Linked(n, t, p)
    decreases t
  {
    match t
    case Leaf =>
    case Node(o, b, l, r) =>
      LinkedFrame(m, n, l, o);
      LinkedFrame(m, n, r, o);
  }

  lemma {:induction false} LinkedCtxFrame(m: Links, n: Links, c: Ctx, child: int)
    requires LinkedCtx(m, c, child)
    requires Agree(m, n, CtxOffs(c))
    ensures LinkedCtx(n, c, child)
    decreases c
  {
    match c
    case Top =>
    case InLeft(o, b, up, s) =>
      LinkedFrame(m, n, s, o);
      LinkedCtxFrame(m, n, up, o);
    case InRight(o, b, up, s) =>
      LinkedFrame(m, n, s, o);
      LinkedCtxFrame(m, n, up, o);
  }

  /** Only the root of a tree knows the parent. */
  lemma {:induction false} Reparent(m: Links, n: Links, t: Tree, p: int, q: int)
    requires Linked(m, t, p) && Proper(t)
    requires Agree(m, n, Offs(t) - {RootOff(t)})
    requires t.Node? ==> 0 <= t.off < |n| && 0 <= t.off < |m| && n[t.off] == m[t.off].(parent := q)
    ensures Linked(n, t, q)
  {
    if t.Node? {
      LinkedFrame(m, n, t.left, t.off);
      LinkedFrame(m, n, t.right, t.off);
    }
  }

  /** Only the lowest frame of a path knows the focused child. */
  lemma {:induction false} Rechild(m: Links, n: Links, c: Ctx, child: int, kid: int)
    requires LinkedCtx(m, c, child) && ProperCtx(c)
    requires Agree(m, n, CtxOffs(c) - {ParentOff(c)})
    requires c.Top? || (0 <= c.off < |n| && 0 <= c.off < |m|
      && n[c.off] == (if c.InLeft? then m[c.off].(left := kid) else m[c.off].(right := kid)))
    ensures LinkedCtx(n, c, kid)
  {
    if !c.Top? {
      LinkedFrame(m, n, c.sib, c.off);
      LinkedCtxFrame(m, n, c.up, c.off);
    }
  }

  // ---------------------------------------------------------------- balance

  function BlackHeight(t: Tree): nat {
    if t.Leaf? then 0 else BlackHeight(t.left) + (if t.black then 1 else 0)
  }

  /** No red node has a red child and all paths carry the same number of black nodes. */
  predicate RedBlack(t: Tree) {
    match t
    case Leaf => true
    case Node(_, b, l, r) =>
      && RedBlack(l) && RedBlack(r) && BlackHeight(l) == BlackHeight(r)
      && (!b ==> IsBlack(l) && IsBlack(r))
  }

  /** A red-black subtree of black height `h` whose root is `black` completes `c`
      to a red-black tree with a black root. */
  predicate CtxOk(c: Ctx, black: bool, h: nat) {
    match c
    case Top => black
    case InLeft(_, b, up, s) =>
      && RedBlack(s) && BlackHeight(s) == h && (!b ==> black && IsBlack(s))
      && CtxOk(up, b, if b then h + 1 else h)
    case InRight(_, b, up, s) =>
      && RedBlack(s) && BlackHeight(s) == h && (!b ==> black && IsBlack(s))
      && CtxOk(up, b, if b then h + 1 else h)
  }

  predicate Balanced(c: Ctx, t: Tree) {
    RedBlack(t) && CtxOk(c, IsBlack(t), BlackHeight(t))
  }

  lemma {:induction false} BalancedPlug(c: Ctx, t: Tree)
    ensures Balanced(c, t) <==> Balanced(Top, Plug(c, t))
    decreases c
  {
    match c
    case Top =>
    case InLeft(o, b, up, s) => BalancedPlug(up, Node(o, b, t, s));
    case InRight(o, b, up, s) => BalancedPlug(up, Node(o, b, s, t));
  }

  function RotateLeft(t: Tree): Tree
    requires t.Node? && t.right.Node?
  {
    Node(t.right.off, t.right.black, Node(t.off, t.black, t.left, t.right.left), t.right.right)
  }

  function RotateRight(t: Tree): Tree
    requires t.Node? && t.left.Node?
  {
    Node(t.left.off, t.left.black, t.left.left, Node(t.off, t.black, t.left.right, t.right))
  }

  function Known(off: int): set<int> {
    if off < 0 then {} else {off}
  }

  /** The pointer writes of a left rotation at `t` turn memory `m` into memory `n`. */
  ghost predicate RotatedLeft(m: Links, n: Links, root: int, root': int, c: Ctx, t: Tree)
    requires t.Node? && t.right.Node?
  {
    var x, y, k, p := t.off, t.right.off, RootOff(t.right.left), ParentOff(c);
    && SameExcept(m, n, {x, y} + Known(k) + Known(p)) && 0 <= x < |m| && 0 <= y < |m| && (c.Top? || 0 <= p < |m|)
    && n[x] == Link(t.black, y, RootOff(t.left), k)
    && n[y] == Link(t.right.black, p, x, RootOff(t.right.right))
    && (k >= 0 && 0 <= k < |m| ==> n[k] == m[k].(parent := x))
    && (c.InLeft? ==> n[p] == m[p].(left := y))
    && (c.InRight? ==> n[p] == m[p].(right := y))
    && root' == (if c.Top? then y else root)
  }

  /** What a rotation at `t` sees: the three subtrees below the two nodes it moves. */
  lemma {:induction false} RightParts(m: Links, root: int, c: Ctx, t: Tree)
    requires Rep(m, root, c, t) && t.Node? && t.right.Node?
    ensures Rep(m, root, InRight(t.off, t.black, c, t.left), t.right)
    ensures Linked(m, t.left, t.off) && Linked(m, t.right.left, t.right.off) && Linked(m, t.right.right, t.right.off)
    ensures Proper(t.left) && Proper(t.right.left) && Proper(t.right.right)
    ensures 0 <= RootOff(t.left) < |m| || t.left.Leaf?
    ensures RootOff(t.right.left) in Offs(t.right.left) || t.right.left.Leaf?
    ensures 0 <= t.off < |m| && 0 <= t.right.off < |m| && (c.Top? || 0 <= c.off < |m|)
    ensures !c.Top? ==> c.off in CtxOffs(c) && (RootOff(c.sib) in Offs(c.sib) || c.sib.Leaf?)
    ensures Offs(t.left) !! Offs(t.right.left) !! Offs(t.right.right) !! CtxOffs(c) !! {t.off} !! {t.right.off}
  {
    assert Rep(m, root, InRight(t.off, t.black, c, t.left), t.right);
  }

  lemma {:induction false} RotateLeftShape(t: Tree)
    requires Proper(t) && t.Node? && t.right.Node?
    ensures Proper(RotateLeft(t)) && Offs(RotateLeft(t)) == Offs(t)
    ensures SameOrder(RotateLeft(t), t)
  {
  }

  lemma {:induction false} RotatedLeftDown(m: Links, n: Links, root: int, root': int, c: Ctx, t: Tree)
    requires Rep(m, root, c, t) && t.Node? && t.right.Node?
    requires RotatedLeft(m, n, root, root', c, t)
    ensures Linked(n, RotateLeft(t), ParentOff(c))
  {
    RightParts(m, root, c, t);
    LinkedFrame(m, n, t.left, t.off);
    LinkedFrame(m, n, t.right.right, t.right.off);
    Reparent(m, n, t.right.left, t.right.off, t.off);
  }

  lemma {:induction false} RotatedLeftUp(m: Links, n: Links, root: int, root': int, c: Ctx, t: Tree)
    requires Rep(m, root, c, t) && t.Node? && t.right.Node?
    requires RotatedLeft(m, n, root, root', c, t)
    ensures LinkedCtx(n, c, t.right.off)
  {
    RightParts(m, root, c, t);
    Rechild(m, n, c, t.off, t.right.off);
  }

  lemma RotatedLeftRep(m: Links, n: Links, root: int, root': int, c: Ctx, t: Tree)
    requires Rep(m, root, c, t) && t.Node? && t.right.Node?
    requires RotatedLeft(m, n, root, root', c, t)
    ensures Rep(n, root', c, RotateLeft(t))
  {
    RotatedLeftDown(m, n, root, root', c, t);
    RotatedLeftUp(m, n, root, root', c, t);
    RotateLeftShape(t);
  }

  /** The pointer writes of a right rotation at `t` turn memory `m` into memory `n`. */
  ghost predicate RotatedRight(m: Links, n: Links, root: int, root': int, c: Ctx, t: Tree)
    requires t.Node? && t.left.Node?
  {
    var x, y, k, p := t.off, t.left.off, RootOff(t.left.right), ParentOff(c);
    && SameExcept(m, n, {x, y} + Known(k) + Known(p)) && 0 <= x < |m| && 0 <= y < |m| && (c.Top? || 0 <= p < |m|)
    && n[x] == Link(t.black, y, k, RootOff(t.right))
    && n[y] == Link(t.left.black, p, RootOff(t.left.left), x)
    && (k >= 0 && 0 <= k < |m| ==> n[k] == m[k].(parent := x))
    && (c.InLeft? ==> n[p] == m[p].(left := y))
    && (c.InRight? ==> n[p] == m[p].(right := y))
    && root' == (if c.Top? then y else root)
  }

  /** What a rotation at `t` sees: the three subtrees below the two nodes it moves. */
  lemma {:induction false} LeftParts(m: Links, root: int, c: Ctx, t: Tree)
    requires Rep(m, root, c, t) && t.Node? && t.left.Node?
    ensures Rep(m, root, InLeft(t.off, t.black, c, t.right), t.left)
    ensures Linked(m, t.right, t.off) && Linked(m, t.left.right, t.left.off) && Linked(m, t.left.left, t.left.off)
    ensures Proper(t.right) && Proper(t.left.right) && Proper(t.left.left)
    ensures 0 <= RootOff(t.right) < |m| || t.right.Leaf?
    ensures RootOff(t.left.right) in Offs(t.left.right) || t.left.right.Leaf?
    ensures 0 <= t.off < |m| && 0 <= t.left.off < |m| && (c.Top? || 0 <= c.off < |m|)
    ensures !c.Top? ==> c.off in CtxOffs(c) && (RootOff(c.sib) in Offs(c.sib) || c.sib.Leaf?)
    ensures Offs(t.right) !! Offs(t.left.right) !! Offs(t.left.left) !! CtxOffs(c) !! {t.off} !! {t.left.off}
  {
    assert Rep(m, root, InLeft(t.off, t.black, c, t.right), t.left);
  }

  lemma {:induction false} RotateRightShape(t: Tree)
    requires Proper(t) && t.Node? && t.left.Node?
    ensures Proper(RotateRight(t)) && Offs(RotateRight(t)) == Offs(t)
    ensures SameOrder(RotateRight(t), t)
  {
  }

  lemma {:induction false} RotatedRightDown(m: Links, n: Links, root: int, root': int, c: Ctx, t: Tree)
    requires Rep(m, root, c, t) && t.Node? && t.left.Node?
    requires RotatedRight(m, n, root, root', c, t)
    ensures Linked(n, RotateRight(t), ParentOff(c))
  {
    LeftParts(m, root, c, t);
    LinkedFrame(m, n, t.right, t.off);
    LinkedFrame(m, n, t.left.left, t.left.off);
    Reparent(m, n, t.left.right, t.left.off, t.off);
  }

  lemma {:induction false} RotatedRightUp(m: Links, n: Links, root: int, root': int, c: Ctx, t: Tree)
    requires Rep(m, root, c, t) && t.Node? && t.left.Node?
    requires RotatedRight(m, n, root, root', c, t)
    ensures LinkedCtx(n, c, t.left.off)
  {
    LeftParts(m, root, c, t);
    Rechild(m, n, c, t.off, t.left.off);
  }

  lemma RotatedRightRep(m: Links, n: Links, root: int, root': int, c: Ctx, t: Tree)
    requires Rep(m, root, c, t) && t.Node? && t.left.Node?
    requires RotatedRight(m, n, root, root', c, t)
    ensures Rep(n, root', c, RotateRight(t))
  {
    RotatedRightDown(m, n, root, root', c, t);
    RotatedRightUp(m, n, root, root', c, t);
    RotateRightShape(t);
  }

  /** One frame up from the focus. */
  function Above(c: Ctx, t: Tree): Tree
    requires !c.Top?
  {
    if c.InLeft? then Node(c.off, c.black, t, c.sib) else Node(c.off, c.black, c.sib, t)
  }

  /** Moving the focus one frame up changes nothing. */
  lemma RepUp(m: Links, root: int, c: Ctx, t: Tree)
    requires !c.Top?
    ensures Rep(m, root, c, t) <==> Rep(m, root, c.up, Above(c, t))
  {
  }

  lemma {:induction false} RootBelowKnown(m: Links, c: Ctx, child: int)
    requires ProperCtx(c) && LinkedCtx(m, c, child) && !c.Top?
    ensures 0 <= RootBelow(c, child) < |m| && RootBelow(c, child) in CtxOffs(c)
    decreases c
  {
    if !c.up.Top? { RootBelowKnown(m, c.up, c.off); }
  }

  /** What the memory says about the focused node and the frame above it. */
  lemma RepNode(m: Links, root: int, c: Ctx, t: Tree)
    requires Rep(m, root, c, t)
    ensures t.Node? ==> t.off >= 0 && 0 <= t.off < |m| && m[t.off] == Link(t.black, ParentOff(c), RootOff(t.left), RootOff(t.right))
    ensures t.Node? ==> (t.left.Node? ==> t.left.off >= 0) && (t.right.Node? ==> t.right.off >= 0)
    ensures t.Node? && t.left.Node? ==> RootOff(t.left) != RootOff(t.right)
    ensures !c.Top? ==> c.off >= 0 && 0 <= c.off < |m| && m[c.off].black == c.black && m[c.off].parent == ParentOff(c.up)
    ensures c.InLeft? ==> m[c.off].left == RootOff(t) && m[c.off].right == RootOff(c.sib)
    ensures c.InRight? ==> m[c.off].left == RootOff(c.sib) && m[c.off].right == RootOff(t)
    ensures !c.Top? && c.sib.Node? ==> c.sib.off >= 0 && 0 <= c.sib.off < |m| && m[c.sib.off].black == c.sib.black && c.sib.off != RootOff(t)
    ensures root == -1 <==> c.Top? && t.Leaf?
    ensures -1 <= root < |m| && (root == RootOff(t) && t.Node? ==> c.Top?)
    ensures c.Top? ==> root == RootOff(t)
  {
    assert t.Node? ==> Proper(t.left) && Proper(t.right);
    if !c.Top? { RootBelowKnown(m, c, RootOff(t)); }
  }

  lemma PaintedRep(m: Links, root: int, c: Ctx, t: Tree, black: bool)
    requires Rep(m, root, c, t) && t.Node?
    ensures 0 <= t.off < |m| && Rep(m[t.off := m[t.off].(black := black)], root, c, t.(black := black))
  {
    var n := m[t.off := m[t.off].(black := black)];
    LinkedFrame(m, n, t.left, t.off);
    LinkedFrame(m, n, t.right, t.off);
    LinkedCtxFrame(m, n, c, t.off);
  }

  /** The five memory cells a rotation may touch are distinct. */
  lemma LeftRtSite(m: Links, root: int, c: Ctx, t: Tree)
    requires Rep(m, root, c, t) && t.Node? && t.right.Node?
    ensures var x, y, k, p := t.off, t.right.off, RootOff(t.right.left), ParentOff(c);
      && 0 <= x < |m| && 0 <= y < |m| && x != y && x != k && y != k && x != p && y != p && x >= 0 && y >= 0
      && (k >= 0 <==> t.right.left.Node?) && (p >= 0 <==> !c.Top?)
      && (k >= 0 ==> 0 <= k < |m| && k != p) && (p >= 0 ==> 0 <= p < |m|)
      && m[x] == Link(t.black, p, RootOff(t.left), RootOff(t.right))
      && m[y] == Link(t.right.black, x, RootOff(t.right.left), RootOff(t.right.right))
      && (c.InLeft? ==> m[p].left == x) && (c.InRight? ==> m[p].left != x)
  {
    RightParts(m, root, c, t);
    RepNode(m, root, c, t);
  }

  /** The five memory cells a rotation may touch are distinct. */
  lemma RightRtSite(m: Links, root: int, c: Ctx, t: Tree)
    requires Rep(m, root, c, t) && t.Node? && t.left.Node?
    ensures var x, y, k, p := t.off, t.left.off, RootOff(t.left.right), ParentOff(c);
      && 0 <= x < |m| && 0 <= y < |m| && x != y && x != k && y != k && x != p && y != p && x >= 0 && y >= 0
      && (k >= 0 <==> t.left.right.Node?) && (p >= 0 <==> !c.Top?)
      && (k >= 0 ==> 0 <= k < |m| && k != p) && (p >= 0 ==> 0 <= p < |m|)
      && m[x] == Link(t.black, p, RootOff(t.left), RootOff(t.right))
      && m[y] == Link(t.left.black, x, RootOff(t.left.left), RootOff(t.left.right))
      && (c.InLeft? ==> m[p].left == x) && (c.InRight? ==> m[p].left != x)
  {
    LeftParts(m, root, c, t);
    RepNode(m, root, c, t);
  }

  // ---------------------------------------------------------------- insertion

  /** A red subtree in place of a black one of the same height: at most the edge to
      the parent is red-red. */
  predicate Inserting(c: Ctx, t: Tree) {
    t.Node? && !t.black && RedBlack(t) && CtxOk(c, true, BlackHeight(t))
  }

  /** The tree two frames above the focus, with new colours for it, its child on the
      path and its other child. */
  function Recoloured(c: Ctx, t: Tree): Tree
    requires !c.Top? && !c.up.Top? && c.up.sib.Node?
  {
    Above(c.up.(black := false, sib := c.up.sib.(black := true)), Above(c.(black := true), t))
  }

  lemma {:induction false} RedHasGrandparent(c: Ctx, t: Tree)
    requires Inserting(c, t) && !c.Top? && !c.black
    ensures !c.up.Top? && c.up.black
    ensures RedBlack(c.sib) && IsBlack(c.sib) && BlackHeight(c.sib) == BlackHeight(t)
    ensures RedBlack(c.up.sib) && BlackHeight(c.up.sib) == BlackHeight(t)
    ensures CtxOk(c.up.up, true, BlackHeight(t) + 1)
  {
    assert CtxOk(c.up, false, BlackHeight(t));
  }

  lemma {:induction false} RecolouredOk(c: Ctx, t: Tree)
    requires Inserting(c, t) && !c.Top? && !c.black && !c.up.Top?
    requires c.up.sib.Node? && !c.up.sib.black
    ensures Inserting(c.up.up, Recoloured(c, t))
    ensures SameOrder(Plug(c.up.up, Recoloured(c, t)), Plug(c, t))
  {
    RedHasGrandparent(c, t);
    var p, p' := Above(c, t), Above(c.(black := true), t);
    assert RedBlack(p') && BlackHeight(p') == BlackHeight(t) + 1;
    assert RedBlack(c.up.sib.(black := true));
    PlugSameOrder(c.up.up, Recoloured(c, t), Above(c.up, p));
  }

  /** The subtree that replaces the grandparent after the rotations: the middle one of
      focus, parent and grandparent on top, in black. */
  function Rotated(c: Ctx, t: Tree): Tree
    requires !c.Top? && !c.up.Top? && t.Node?
  {
    match (c, c.up)
    case (InLeft(p, _, _, s), InLeft(g, _, _, u)) => Node(p, true, t, Node(g, false, s, u))
    case (InRight(p, _, _, s), InLeft(g, _, _, u)) => Node(t.off, true, Node(p, t.black, s, t.left), Node(g, false, t.right, u))
    case (InRight(p, _, _, s), InRight(g, _, _, u)) => Node(p, true, Node(g, false, u, s), t)
    case (InLeft(p, _, _, s), InRight(g, _, _, u)) => Node(t.off, true, Node(g, false, u, t.left), Node(p, t.black, t.right, s))
  }

  lemma RotatedOrder(c: Ctx, t: Tree)
    requires !c.Top? && !c.up.Top? && t.Node?
    ensures SameOrder(Rotated(c, t), Above(c.up, Above(c, t)))
  {
    forall k ensures Walk(Rotated(c, t), k) == Walk(Above(c.up, Above(c, t)), k) {
      var p := Above(c, t);
      var k1 := if c.up.InLeft? then [c.up.off] + Walk(c.up.sib, k) else k;
      var k2 := if c.InLeft? then [c.off] + Walk(c.sib, k1) else k1;
      assert Walk(p, k1) == if c.InLeft? then Walk(t, k2) else Walk(c.sib, [c.off] + Walk(t, k1));
      assert Walk(t, k2) == Walk(t.left, [t.off] + Walk(t.right, k2));
    }
  }

  lemma {:induction false} RotatedOk(c: Ctx, t: Tree)
    requires Inserting(c, t) && !c.Top? && !c.black && !c.up.Top? && IsBlack(c.up.sib)
    ensures Balanced(c.up.up, Rotated(c, t)) && Rotated(c, t).black
    ensures SameOrder(Plug(c.up.up, Rotated(c, t)), Plug(c, t))
  {
    RedHasGrandparent(c, t);
    var r := Rotated(c, t);
    assert RedBlack(r.left) && RedBlack(r.right);
    RotatedOrder(c, t);
    PlugSameOrder(c.up.up, r, Above(c.up, Above(c, t)));
  }

  lemma {:induction false} PlugNode(c: Ctx, t: Tree)
    requires t.Node?
    ensures Plug(c, t).Node?
    decreases c
  {
    if !c.Top? { PlugNode(c.up, Above(c, t)); }
  }

  /** Painting the root black finishes the insertion. */
  lemma {:induction false} InsertedOk(c: Ctx, t: Tree)
    requires t.Node? && (Balanced(c, t) || (Inserting(c, t) && (c.Top? || c.black)))
    ensures Plug(c, t).Node?
    ensures Balanced(Top, Plug(c, t).(black := true))
    ensures SameOrder(Plug(c, t).(black := true), Plug(c, t))
  {
    PlugNode(c, t);
    BalancedPlug(c, t);
  }

  // ---------------------------------------------------------------- deletion

  /** One black node is missing on every path through the focus.  The focused root may
      be red above red children; painting it black repairs both faults. */
  predicate Deleting(c: Ctx, t: Tree) {
    && (t.Node? ==> RedBlack(t.left) && RedBlack(t.right) && BlackHeight(t.left) == BlackHeight(t.right))
    && (t.Node? && t.black ==> RedBlack(t))
    && CtxOk(c, true, BlackHeight(t) + 1)
  }

  function Depth(c: Ctx): nat {
    if c.Top? then 0 else 1 + Depth(c.up)
  }

  lemma DeletedOk(c: Ctx, t: Tree)
    requires Deleting(c, t) && t.Node?
    ensures !t.black ==> Balanced(c, t.(black := true))
    ensures c.Top? ==> Balanced(c, t.(black := true))
    ensures SameOrder(t.(black := true), t)
  {
  }

  /** A balanced tree has a black root already. */
  lemma {:induction false} PlugRootBlack(c: Ctx, t: Tree)
    requires Balanced(c, t)
    ensures Balanced(Top, Plug(c, t)) && IsBlack(Plug(c, t))
  {
    BalancedPlug(c, t);
  }

  lemma {:induction false} BrotherExists(c: Ctx, t: Tree)
    requires Deleting(c, t) && !c.Top? && IsBlack(t)
    ensures c.sib.Node? && RedBlack(t) && RedBlack(c.sib) && BlackHeight(c.sib) == BlackHeight(t) + 1
    ensures !c.black ==> c.sib.black
    ensures CtxOk(c.up, c.black, BlackHeight(t) + if c.black then 2 else 1)
    ensures CtxOk(c.up, true, BlackHeight(t) + if c.black then 2 else 1)
  {
  }

  /** The path after the rotation that lifts a red brother above the parent. */
  function Lifted(c: Ctx): Ctx
    requires !c.Top? && c.sib.Node?
  {
    if c.InLeft? then InLeft(c.off, false, InLeft(c.sib.off, true, c.up, c.sib.right), c.sib.left)
    else InRight(c.off, false, InRight(c.sib.off, true, c.up, c.sib.left), c.sib.right)
  }

  lemma {:induction false} LiftedOk(c: Ctx, t: Tree)
    requires Deleting(c, t) && !c.Top? && IsBlack(t) && c.sib.Node? && !c.sib.black
    ensures Deleting(Lifted(c), t) && Lifted(c).sib.Node? && Lifted(c).sib.black
    ensures SameOrder(Plug(Lifted(c), t), Plug(c, t))
  {
    BrotherExists(c, t);
    var d := Lifted(c);
    assert CtxOk(d.up, false, BlackHeight(t) + 1);
    PlugSameOrder(c.up, Above(d.up, Above(d, t)), Above(c, t));
  }

  /** The brother turned red: the whole level is one black node short. */
  function Lowered(c: Ctx, t: Tree): Tree
    requires !c.Top? && c.sib.Node?
  {
    Above(c.(sib := c.sib.(black := false)), t)
  }

  /** What the memory says about the brother of the focus. */
  lemma RepBrother(m: Links, root: int, c: Ctx, t: Tree)
    requires Rep(m, root, c, t) && !c.Top? && c.sib.Node?
    ensures var b := c.sib; 0 <= b.off < |m| && m[b.off] == Link(b.black, c.off, RootOff(b.left), RootOff(b.right))
    ensures c.sib.left.Node? ==> var l := c.sib.left; 0 <= l.off < |m| && m[l.off].black == l.black
    ensures c.sib.right.Node? ==> var r := c.sib.right; 0 <= r.off < |m| && m[r.off].black == r.black
  {
    assert Linked(m, c.sib, c.off);
    assert Linked(m, c.sib.left, c.sib.off) && Linked(m, c.sib.right, c.sib.off);
    assert Proper(c.sib.left) && Proper(c.sib.right);
  }

  lemma {:induction false} LoweredOk(c: Ctx, t: Tree)
    requires Deleting(c, t) && !c.Top? && IsBlack(t) && c.sib.Node? && c.sib.black
    requires IsBlack(c.sib.left) && IsBlack(c.sib.right)
    ensures Deleting(c.up, Lowered(c, t))
    ensures SameOrder(Plug(c.up, Lowered(c, t)), Plug(c, t))
  {
    BrotherExists(c, t);
    assert RedBlack(c.sib.(black := false));
    PlugSameOrder(c.up, Lowered(c, t), Above(c, t));
  }

  /** The subtree after the last rotations, when the brother has a red child. */
  function Restored(c: Ctx, t: Tree): Tree
    requires !c.Top? && c.sib.Node? && (!IsBlack(c.sib.left) || !IsBlack(c.sib.right))
  {
    var b := c.sib;
    if c.InLeft? then
      if IsBlack(b.right) then
        Node(b.left.off, c.black, Node(c.off, true, t, b.left.left), Node(b.off, true, b.left.right, b.right))
      else
        Node(b.off, c.black, Node(c.off, true, t, b.left), b.right.(black := true))
    else
      if IsBlack(b.left) then
        Node(b.right.off, c.black, Node(b.off, true, b.left, b.right.left), Node(c.off, true, b.right.right, t))
      else
        Node(b.off, c.black, b.left.(black := true), Node(c.off, true, b.right, t))
  }

  lemma {:induction false} RestoredOk(c: Ctx, t: Tree)
    requires Deleting(c, t) && !c.Top? && IsBlack(t) && c.sib.Node? && c.sib.black
    requires !IsBlack(c.sib.left) || !IsBlack(c.sib.right)
    ensures Balanced(c.up, Restored(c, t)) && Restored(c, t).Node?
    ensures SameOrder(Plug(c.up, Restored(c, t)), Plug(c, t))
  {
    BrotherExists(c, t);
    var r := Restored(c, t);
    assert RedBlack(r.left) && RedBlack(r.right);
    RestoredOrder(c, t);
    PlugSameOrder(c.up, r, Above(c, t));
  }

  lemma RestoredOrder(c: Ctx, t: Tree)
    requires !c.Top? && c.sib.Node? && (!IsBlack(c.sib.left) || !IsBlack(c.sib.right))
    ensures SameOrder(Restored(c, t), Above(c, t))
  {
    var b := c.sib;
    forall k ensures Walk(Restored(c, t), k) == Walk(Above(c, t), k) {
      var k1 := if c.InLeft? then k else [c.off] + Walk(t, k);
      var k2 := [b.off] + Walk(b.right, k1);
      assert Walk(b, k1) == Walk(b.left, k2);
      if c.InLeft? && b.left.Node? {
        assert Walk(b.left, k2) == Walk(b.left.left, [b.left.off] + Walk(b.left.right, k2));
      } else if b.right.Node? {
        assert Walk(b.right, k1) == Walk(b.right.left, [b.right.off] + Walk(b.right.right, k1));
      }
    }
  }

  // ---------------------------------------------------------------- splicing a node out

  /** The path `c` continued by the path `d`. */
  function Append(c: Ctx, d: Ctx): Ctx {
    match c
    case Top => d
    case InLeft(o, b, up, s) => InLeft(o, b, Append(up, d), s)
    case InRight(o, b, up, s) => InRight(o, b, Append(up, d), s)
  }

  lemma {:induction false} RepAppend(m: Links, root: int, c: Ctx, d: Ctx, t: Tree)
    ensures Rep(m, root, Append(c, d), t) <==> Rep(m, root, d, Plug(c, t))
    decreases c
  {
    if !c.Top? {
      RepUp(m, root, Append(c, d), t);
      RepAppend(m, root, c.up, d, Above(c, t));
    }
  }

  lemma {:induction false} CtxOkAppend(c: Ctx, d: Ctx, e: Ctx, black: bool, h: nat)
    requires CtxOk(Append(c, d), black, h)
    requires forall k, g | CtxOk(d, k, g) :: CtxOk(e, k, g)
    ensures CtxOk(Append(c, e), black, h)
    decreases c
  {
    if !c.Top? {
      CtxOkAppend(c.up, d, e, c.black, if c.black then h + 1 else h);
    }
  }

  /** A path that only ever went left. */
  predicate LeftSpine(c: Ctx) {
    c.Top? || (c.InLeft? && LeftSpine(c.up))
  }

  /** The lowest node of a left spine is the first in search order. */
  lemma {:induction false} SpineFirst(c: Ctx, t: Tree, t': Tree, first: int)
    requires LeftSpine(c)
    requires forall k :: Walk(t, k) == [first] + Walk(t', k)
    ensures forall k :: Walk(Plug(c, t), k) == [first] + Walk(Plug(c, t'), k)
    decreases c
  {
    if !c.Top? {
      SpineFirst(c.up, Above(c, t), Above(c, t'), first);
    }
  }

  /** The pointer writes that put `new` where the path `c` expects its focus. */
  function Replaced(m: Links, c: Ctx, new': int): Links
    requires (c.Top? || 0 <= c.off < |m|) && new' < |m|
  {
    var m1 := if c.Top? then m
              else if c.InLeft? then m[c.off := m[c.off].(left := new')]
              else m[c.off := m[c.off].(right := new')];
    if new' < 0 then m1 else m1[new' := m1[new'].(parent := ParentOff(c))]
  }

  /** A node with a single child is replaced by that child. */
  lemma SplicedRep(m: Links, root: int, c: Ctx, t: Tree, child: Tree)
    requires Rep(m, root, c, t) && t.Node?
    requires (t.left == Leaf && child == t.right) || (t.right == Leaf && child == t.left)
    ensures (c.Top? || 0 <= c.off < |m|) && RootOff(child) < |m|
    ensures Rep(Replaced(m, c, RootOff(child)), if c.Top? then RootOff(child) else root, c, child)
  {
    RepNode(m, root, c, t);
    assert Linked(m, child, t.off) && Proper(child);
    var n := Replaced(m, c, RootOff(child));
    Reparent(m, n, child, t.off, ParentOff(c));
    Rechild(m, n, c, t.off, RootOff(child));
  }

  /** Node `s` takes the place, colour and children of the focused node. */
  ghost predicate Substituted(m: Links, n: Links, c: Ctx, x: int, s: int, black: bool, l: Tree, r: Tree) {
    && SameExcept(m, n, {s} + Known(RootOff(l)) + Known(RootOff(r)) + Known(ParentOff(c)))
    && 0 <= s < |m| && n[s] == Link(black, ParentOff(c), RootOff(l), RootOff(r))
    && (l.Node? ==> 0 <= l.off < |m| && n[l.off] == m[l.off].(parent := s))
    && (r.Node? ==> 0 <= r.off < |m| && n[r.off] == m[r.off].(parent := s))
    && (c.InLeft? ==> 0 <= c.off < |m| && n[c.off] == m[c.off].(left := s))
    && (c.InRight? ==> 0 <= c.off < |m| && n[c.off] == m[c.off].(right := s))
  }

  /** The pieces around a focused node, and a spare node `s` outside all of them. */
  predicate Pieces(m: Links, c: Ctx, x: int, l: Tree, r: Tree, q: int, s: int) {
    && Linked(m, l, x) && Linked(m, r, q) && LinkedCtx(m, c, x)
    && Proper(l) && Proper(r) && ProperCtx(c)
    && Offs(l) !! Offs(r) && Offs(l) !! CtxOffs(c) && Offs(r) !! CtxOffs(c)
    && s !in Offs(l) && s !in Offs(r) && s !in CtxOffs(c)
    && 0 <= s < |m|
  }

  lemma {:induction false} SubstitutedAgree(m: Links, n: Links, c: Ctx, x: int, s: int, black: bool, l: Tree, r: Tree)
    requires Substituted(m, n, c, x, s, black, l, r)
    requires Offs(l) !! Offs(r) && Offs(l) !! CtxOffs(c) && Offs(r) !! CtxOffs(c)
    requires s !in Offs(l) && s !in Offs(r) && s !in CtxOffs(c)
    ensures Agree(m, n, Offs(l) - {RootOff(l)})
    ensures Agree(m, n, Offs(r) - {RootOff(r)})
    ensures Agree(m, n, CtxOffs(c) - {ParentOff(c)})
  {
    assert l.Node? ==> l.off in Offs(l);
    assert r.Node? ==> r.off in Offs(r);
    assert !c.Top? ==> c.off in CtxOffs(c);
    hide Offs, CtxOffs;
  }

  lemma {:induction false} SubstitutedRep(m: Links, n: Links, c: Ctx, x: int, s: int, black: bool, l: Tree, r: Tree, q: int, root: int)
    requires Substituted(m, n, c, x, s, black, l, r)
    requires Pieces(m, c, x, l, r, q, s)
    requires root == RootBelow(c, s)
    ensures Rep(n, root, c, Node(s, black, l, r))
  {
    hide Agree;
    SubstitutedAgree(m, n, c, x, s, black, l, r);
    Reparent(m, n, l, x, s);
    Reparent(m, n, r, q, s);
    Rechild(m, n, c, x, s);
    var t := Node(s, black, l, r);
    assert Proper(t);
    assert Offs(t) !! CtxOffs(c);
    assert Linked(n, t, ParentOff(c));
    assert LinkedCtx(n, c, RootOff(t));
  }

  // ---------------------------------------------------------------- search order as a sequence

  lemma {:induction false} WalkInorder(t: Tree, k: seq<int>)
    ensures Walk(t, k) == Inorder(t) + k
    decreases t
  {
    match t
    case Leaf =>
    case Node(o, _, l, r) =>
      WalkInorder(r, k);
      WalkInorder(l, [o] + Walk(r, k));
      WalkInorder(l, [o] + Walk(r, []));
      Regroup(Inorder(l), [o], Inorder(r), k);
  }

  lemma Regroup(a: seq<int>, b: seq<int>, c: seq<int>, d: seq<int>)
    ensures a + (b + (c + d)) == (a + (b + c)) + d
  {
  }

  function Before(c: Ctx): seq<int> {
    match c
    case Top => []
    case InLeft(_, _, up, _) => Before(up)
    case InRight(o, _, up, s) => Before(up) + Inorder(s) + [o]
  }

  function After(c: Ctx): seq<int> {
    match c
    case Top => []
    case InLeft(o, _, up, s) => [o] + Inorder(s) + After(up)
    case InRight(_, _, up, _) => After(up)
  }

  lemma {:induction false} PlugInorder(c: Ctx, t: Tree)
    ensures Inorder(Plug(c, t)) == Before(c) + Inorder(t) + After(c)
    decreases c
  {
    if !c.Top? {
      PlugInorder(c.up, Above(c, t));
      WalkInorder(Above(c, t).left, [c.off] + Walk(Above(c, t).right, []));
      if c.InLeft? {
        Rejoin(Before(c.up), Inorder(t), [c.off], Inorder(c.sib), After(c.up));
      } else {
        Rejoin(Before(c.up), Inorder(c.sib), [c.off], Inorder(t), After(c.up));
      }
    }
  }

  lemma Rejoin(a: seq<int>, l: seq<int>, x: seq<int>, r: seq<int>, b: seq<int>)
    ensures a + (l + (x + r)) + b == a + l + (x + r + b) == a + l + x + r + b
  {
  }

  lemma {:induction false} InorderOffs(t: Tree)
    ensures forall o :: o in Inorder(t) <==> o in Offs(t)
    decreases t
  {
    if t.Node? {
      InorderOffs(t.left);
      InorderOffs(t.right);
      WalkInorder(t.left, [t.off] + Walk(t.right, []));
    }
  }

  /** The path to offset `x`, and the subtree found there. */
  ghost function PathTo(t: Tree, x: int, c: Ctx): (p: (Ctx, Tree))
    requires x in Offs(t)
    ensures Plug(p.0, p.1) == Plug(c, t) && p.1.Node? && p.1.off == x
    decreases t
  {
    if t.off == x then (c, t)
    else if x in Offs(t.left) then PathTo(t.left, x, InLeft(t.off, t.black, c, t.right))
    else PathTo(t.right, x, InRight(t.off, t.black, c, t.left))
  }

  lemma {:induction false} AppendOffs(c: Ctx, d: Ctx)
    ensures CtxOffs(Append(c, d)) == CtxOffs(c) + CtxOffs(d)
    decreases c
  {
    if !c.Top? { AppendOffs(c.up, d); }
  }

  /** The memory facts about node `x` with children `l`, `r` that are read while it is replaced. */
  predicate Held(m: Links, c: Ctx, x: int, black: bool, l: Tree, r: Tree) {
    && 0 <= x < |m| && m[x] == Link(black, ParentOff(c), RootOff(l), RootOff(r))
    && x !in Offs(l) && x !in Offs(r) && x !in CtxOffs(c)
  }

  /** Handing the right subtree of `x` over to `s`. */
  lemma HandOver(m: Links, n: Links, c: Ctx, x: int, l: Tree, r: Tree, s: int)
    requires Pieces(m, c, x, l, r, x, s) && r.Node? && 0 <= r.off < |m| && s != x
    requires SameExcept(m, n, {r.off, s}) && n[r.off] == m[r.off].(parent := s)
    ensures Pieces(n, c, x, l, r, s, s)
  {
    assert r.off in Offs(r);
    LinkedFrame(m, n, l, x);
    LinkedCtxFrame(m, n, c, x);
    Reparent(m, n, r, x, s);
  }

  /** The memory cells touched while `s` takes over from `x` are distinct. */
  lemma TakeOverSite(m: Links, c: Ctx, x: int, black: bool, l: Tree, r: Tree, r0: Tree, s: int)
    requires Pieces(m, c, x, l, r, s, s) && Held(m, c, x, black, l, r0) && l.Node? && s != x
    ensures 0 <= l.off < |m| && 0 <= s < |m| && l.off != s && l.off != x
    ensures r.Node? ==> 0 <= r.off < |m| && m[r.off].parent == s && r.off != l.off && r.off != s
    ensures !c.Top? ==> 0 <= c.off < |m| && c.off !in {s, x, l.off, RootOff(r)}
    ensures c.InLeft? ==> m[c.off].left == x
    ensures c.InRight? ==> m[c.off].right == x && m[c.off].left != x
  {
    assert !c.Top? ==> c.off in CtxOffs(c);
    assert r.Node? ==> r.off in Offs(r);
    assert l.off in Offs(l);
    assert c.InRight? && c.sib.Node? ==> c.sib.off in CtxOffs(c);
  }

  lemma TakenOver(m: Links, n: Links, c: Ctx, x: int, s: int, black: bool, l: Tree, r: Tree, r0: Tree)
    requires Pieces(m, c, x, l, r, s, s) && Held(m, c, x, black, l, r0) && l.Node? && s != x
    requires m[s].right == RootOff(r)
    requires (c.Top? || 0 <= c.off < |m|) && 0 <= l.off < |m|
    requires var m1 := Replaced(m, c, s); var m2 := m1[l.off := m1[l.off].(parent := s)];
      n == m2[s := m2[s].(left := l.off, black := black)]
    ensures Substituted(m, n, c, x, s, black, l, r)
  {
    TakeOverSite(m, c, x, black, l, r, r0, s);
    hide Pieces;
  }

  lemma {:induction false} PlugDeep(c: Ctx, t: Tree)
    requires !c.Top?
    ensures Plug(c, t).Node?
    decreases c
  {
    if !c.up.Top? { PlugDeep(c.up, Above(c, t)); }
  }

  lemma {:induction false} FocusPieces(m: Links, root: int, c: Ctx, t: Tree, s: int)
    requires Rep(m, root, c, t) && t.Node? && s !in Offs(t) && s !in CtxOffs(c) && 0 <= s < |m|
    ensures Pieces(m, c, t.off, t.left, t.right, t.off, s) && Held(m, c, t.off, t.black, t.left, t.right)
    ensures t.right.Node? ==> 0 <= t.right.off < |m| && t.right.off != t.off && t.right.off != s
    ensures root == RootBelow(c, t.off)
  {
    assert t.right.Node? ==> t.right.off in Offs(t.right);
    RepNode(m, root, c, t);
  }

  lemma {:induction false} ProperPlug(c: Ctx, t: Tree)
    requires Proper(Plug(c, t))
    ensures Proper(t) && ProperCtx(c) && Offs(t) !! CtxOffs(c)
    decreases c
  {
    if !c.Top? { ProperPlug(c.up, Above(c, t)); }
  }

  /** The successor found at the end of a left spine, and what surrounds it. */
  lemma {:induction false} SuccessorSpare(m: Links, root: int, c: Ctx, t: Tree, spine: Ctx, u: Tree)
    requires Rep(m, root, c, t) && t.Node? && t.right == Plug(spine, u) && u.Node?
    ensures u.off !in Offs(Node(t.off, t.black, t.left, Plug(spine, u.right))) && u.off !in CtxOffs(c) && u.off != t.off
    ensures !spine.Top? ==> spine.off != t.off
  {
    ProperPlug(spine, u);
    PlugOffs(spine, u);
    PlugOffs(spine, u.right);
    assert u.off in Offs(t.right);
    assert !spine.Top? ==> spine.off in Offs(t.right);
  }

  /** The successor is the right child itself: it already holds its right subtree. */
  lemma {:induction false} DirectPieces(m: Links, root: int, c: Ctx, t: Tree)
    requires Rep(m, root, c, t) && t.Node? && t.right.Node? && t.right.left == Leaf
    ensures Pieces(m, c, t.off, t.left, t.right.right, t.right.off, t.right.off)
    ensures Held(m, c, t.off, t.black, t.left, t.right)
    ensures root == RootBelow(c, t.off) && t.right.off != t.off
  {
    RightParts(m, root, c, t);
    RepNode(m, root, c, t);
  }

  // ---------------------------------------------------------------- what erasing does to the tree

  function Without(s: seq<int>, x: int): seq<int> {
    if s == [] then [] else (if s[0] == x then [] else [s[0]]) + Without(s[1..], x)
  }

  lemma {:induction false} WithoutConcat(a: seq<int>, b: seq<int>, x: int)
    ensures Without(a + b, x) == Without(a, x) + Without(b, x)
    decreases a
  {
    if a == [] {
      assert a + b == b;
    } else {
      assert (a + b)[1..] == a[1..] + b;
      WithoutConcat(a[1..], b, x);
    }
  }

  lemma {:induction false} WithoutAbsent(a: seq<int>, x: int)
    requires x !in a
    ensures Without(a, x) == a
    decreases a
  {
    if a != [] { WithoutAbsent(a[1..], x); }
  }

  lemma {:induction false} WithoutMiddle(a: seq<int>, x: int, b: seq<int>)
    requires x !in a && x !in b
    ensures Without(a + [x] + b, x) == a + b
  {
    hide Without;
    WithoutConcat(a + [x], b, x);
    WithoutLast(a, x);
    WithoutAbsent(b, x);
  }

  lemma {:induction false} WithoutLast(a: seq<int>, x: int)
    requires x !in a
    ensures Without(a + [x], x) == a
  {
    WithoutConcat(a, [x], x);
    WithoutAbsent(a, x);
    assert Without([x], x) == [] && a + [] == a;
  }

  lemma {:induction false} FocusOnce(c: Ctx, t: Tree)
    requires t.Node? && Proper(Plug(c, t))
    ensures t.off !in Before(c) + Inorder(t.left) && t.off !in Inorder(t.right) + After(c)
  {
    ProperPlug(c, t);
    assert t.off in Offs(t);
    CtxInorderOffs(c);
    InorderOffs(t.left);
    InorderOffs(t.right);
  }

  lemma {:induction false} WithoutInner(a: seq<int>, l: seq<int>, x: int, r: seq<int>, b: seq<int>)
    requires x !in a + l && x !in r + b
    ensures Without(a + (l + ([x] + r)) + b, x) == a + (l + r) + b
  {
    assert a + (l + ([x] + r)) + b == (a + l) + [x] + (r + b);
    WithoutMiddle(a + l, x, r + b);
  }

  /** Dropping the focused node and joining its subtrees drops one entry of the search order. */
  lemma {:induction false} JoinedOrder(c: Ctx, t: Tree, j: Tree)
    requires t.Node? && Proper(Plug(c, t))
    requires forall k :: Walk(j, k) == Walk(t.left, Walk(t.right, k))
    ensures Inorder(Plug(c, j)) == Without(Inorder(Plug(c, t)), t.off)
  {
    var l, r := Inorder(t.left), Inorder(t.right);
    assert Inorder(t) == l + ([t.off] + r) by { WalkInorder(t.left, [t.off] + r); }
    assert Inorder(j) == l + r by { WalkInorder(t.left, r); }
    FocusOnce(c, t);
    PlugInorder(c, t);
    PlugInorder(c, j);
    hide Walk, Inorder, Plug, Proper, Without;
    WithoutInner(Before(c), l, t.off, r, After(c));
  }

  lemma {:induction false} CtxInorderOffs(c: Ctx)
    ensures forall o :: o in Before(c) || o in After(c) <==> o in CtxOffs(c)
    decreases c
  {
    if !c.Top? {
      InorderOffs(c.sib);
      CtxInorderOffs(c.up);
    }
  }

  lemma {:induction false} PlugAppend(c: Ctx, d: Ctx, t: Tree)
    ensures Plug(Append(c, d), t) == Plug(d, Plug(c, t))
    decreases c
  {
    if !c.Top? { PlugAppend(c.up, d, Above(c, t)); }
  }

  lemma {:induction false} BalancedAppend(c: Ctx, d: Ctx, t: Tree)
    ensures Balanced(Append(c, d), t) <==> Balanced(d, Plug(c, t))
    decreases c
  {
    if !c.Top? { BalancedAppend(c.up, d, Above(c, t)); }
  }

  /** Colours after a node with a single child gave way to that child. */
  lemma SplicedOk(c: Ctx, t: Tree, child: Tree)
    requires Balanced(c, t) && t.Node?
    requires (t.left == Leaf && child == t.right) || (t.right == Leaf && child == t.left)
    ensures if t.black then Deleting(c, child) else Balanced(c, child)
  {
    assert RedBlack(child) && BlackHeight(child) == 0;
    assert BlackHeight(t) == if t.black then 1 else 0;
  }

  lemma {:induction false} SplicedOrder(c: Ctx, t: Tree, child: Tree)
    requires t.Node? && Proper(Plug(c, t))
    requires (t.left == Leaf && child == t.right) || (t.right == Leaf && child == t.left)
    ensures Inorder(Plug(c, child)) == Without(Inorder(Plug(c, t)), t.off)
  {
    JoinedOrder(c, t, child);
  }

  /** Colours after the successor `sv` took over from the node above its left spine. */
  lemma {:induction false} SuccessorOk(c: Ctx, t: Tree, spine: Ctx, sv: Tree)
    requires Balanced(c, t) && t.Node? && t.right == Plug(spine, sv) && sv.Node? && sv.left == Leaf
    ensures var d := Append(spine, InRight(sv.off, t.black, c, t.left));
      if sv.black then Deleting(d, sv.right) else Balanced(d, sv.right)
  {
    var cr, cs := InRight(t.off, t.black, c, t.left), InRight(sv.off, t.black, c, t.left);
    assert Balanced(cr, t.right);
    BalancedAppend(spine, cr, sv);
    SplicedOk(Append(spine, cr), sv, sv.right);
    var u := sv.right;
    CtxOkAppend(spine, cr, cs, true, BlackHeight(u) + if sv.black then 1 else 0);
  }

  lemma {:induction false} SuccessorOrder(c: Ctx, t: Tree, spine: Ctx, sv: Tree)
    requires t.Node? && Proper(Plug(c, t)) && t.right == Plug(spine, sv)
    requires LeftSpine(spine) && sv.Node? && sv.left == Leaf
    ensures Inorder(Plug(Append(spine, InRight(sv.off, t.black, c, t.left)), sv.right))
         == Without(Inorder(Plug(c, t)), t.off)
  {
    var cs := InRight(sv.off, t.black, c, t.left);
    PlugAppend(spine, cs, sv.right);
    var j := Node(sv.off, t.black, t.left, Plug(spine, sv.right));
    SpineFirst(spine, sv, sv.right, sv.off);
    JoinedOrder(c, t, j);
  }

  lemma {:induction false} RepProper(m: Links, root: int, t: Tree)
    requires Rep(m, root, Top, t)
    ensures Proper(t)
  {
  }

  lemma SameInorder(t: Tree, t': Tree)
    requires SameOrder(t, t')
    ensures Inorder(t) == Inorder(t')
  {
  }

  lemma EmptyBalanced(c: Ctx, t: Tree)
    requires c.Top? && t.Leaf?
    ensures Balanced(c, t)
  {
  }
}
