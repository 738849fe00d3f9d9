/** What the run queue's nodes look like in memory, and the shape they are meant to form:
    a coloured tree, or a coloured tree seen from one of its nodes (a subtree plus the
    context around it). Everything about colours, heights and order is stated on these
    values; `Linked` and `Config` say that the heap really holds them. */
module RedBlackModel {
  import opened Entities
  import opened Numbers

  datatype Color = Red | Black
  datatype Pos = Left | Right

  class RBNode {
    const m_key: nat
    const m_val: SchedEntity
    const se_id: nat
    // Address of the pool block that holds the node.
    const block: nat
    var parent: RBNode?
    var left: RBNode?
    var right: RBNode?
    var m_color: Color
    var m_pos: Pos

    constructor (key: nat, val: SchedEntity, id: nat, block: nat)
      ensures m_key == key && m_val == val && se_id == id && this.block == block
      ensures m_color == Red && m_pos == Pos.Left
      ensures parent == null && left == null && right == null
    {
      m_key, m_val, se_id, this.block := key, val, id, block;
      m_color, m_pos := Red, Pos.Left;
      parent, left, right := null, null, null;
    }

    predicate IsLeaf()
      reads this
    {
      left == null && right == null
    }
  }

  datatype Tree = Nil | Node(left: Tree, node: RBNode, color: Color, right: Tree)

  // A tree with a hole: the path from the hole up to the root.
  datatype Ctx =
    | Top
    | LeftOf(node: RBNode, color: Color, right: Tree, up: Ctx)
    | RightOf(left: Tree, node: RBNode, color: Color, up: Ctx)

  // ---------- Contents ----------

  ghost function Nodes(t: Tree): set<RBNode> {
    match t
    case Nil => {}
    case Node(l, n, _, r) => {n} + Nodes(l) + Nodes(r)
  }

  ghost function CtxNodes(c: Ctx): set<RBNode> {
    match c
    case Top => {}
    case LeftOf(p, _, r, up) => {p} + Nodes(r) + CtxNodes(up)
    case RightOf(l, p, _, up) => {p} + Nodes(l) + CtxNodes(up)
  }

  ghost function InOrder(t: Tree): seq<RBNode> {
    match t
    case Nil => []
    case Node(l, n, _, r) => InOrder(l) + [n] + InOrder(r)
  }

  // The nodes that come before, and after, whatever fills the hole.
  ghost function Before(c: Ctx): seq<RBNode> {
    match c
    case Top => []
    case LeftOf(_, _, _, up) => Before(up)
    case RightOf(l, p, _, up) => Before(up) + InOrder(l) + [p]
  }

  ghost function After(c: Ctx): seq<RBNode> {
    match c
    case Top => []
    case LeftOf(p, _, r, up) => [p] + InOrder(r) + After(up)
    case RightOf(_, _, _, up) => After(up)
  }

  ghost function Plug(c: Ctx, t: Tree): Tree {
    match c
    case Top => t
    case LeftOf(p, k, r, up) => Plug(up, Node(t, p, k, r))
    case RightOf(l, p, k, up) => Plug(up, Node(l, p, k, t))
  }

  ghost function Depth(c: Ctx): nat {
    if c.Top? then 0 else 1 + Depth(c.up)
  }

  lemma Regroup<T>(a: seq<T>, l: seq<T>, m: seq<T>, r: seq<T>, b: seq<T>)
    ensures a + (l + m + r) + b == a + l + (m + r + b)
    ensures a + (l + m + r) + b == (a + l + m) + r + b
  {
  }

  lemma {:induction false} PlugInOrder(c: Ctx, t: Tree)
    ensures InOrder(Plug(c, t)) == Before(c) + InOrder(t) + After(c)
  {
    match c
    case Top =>
    case LeftOf(p, k, r, up) =>
      PlugInOrder(up, Node(t, p, k, r));
      Regroup(Before(up), InOrder(t), [p], InOrder(r), After(up));
    case RightOf(l, p, k, up) =>
      PlugInOrder(up, Node(l, p, k, t));
      Regroup(Before(up), InOrder(l), [p], InOrder(t), After(up));
  }

  lemma {:induction false} PlugNodes(c: Ctx, t: Tree)
    ensures Nodes(Plug(c, t)) == CtxNodes(c) + Nodes(t)
  {
    match c
    case Top =>
    case LeftOf(p, k, r, up) => PlugNodes(up, Node(t, p, k, r));
    case RightOf(l, p, k, up) => PlugNodes(up, Node(l, p, k, t));
  }

  // ---------- Colours and heights ----------

  ghost predicate IsRed(t: Tree) { t.Node? && t.color == Red }

  ghost function Weight(k: Color): nat { if k == Black then 1 else 0 }

  // Black nodes on the leftmost path; in a good tree, on every path.
  ghost function BlackHeight(t: Tree): nat {
    if t.Nil? then 0 else BlackHeight(t.left) + Weight(t.color)
  }

  ghost function Height(t: Tree): nat {
    if t.Nil? then 0
    else 1 + if Height(t.left) < Height(t.right) then Height(t.right) else Height(t.left)
  }

  ghost predicate Balanced(t: Tree) {
    t.Node? ==> Balanced(t.left) && Balanced(t.right) && BlackHeight(t.left) == BlackHeight(t.right)
  }

  // No red node with a red child, same number of black nodes on all paths.
  ghost predicate Good(t: Tree) {
    t.Node? ==>
      && Good(t.left) && Good(t.right)
      && BlackHeight(t.left) == BlackHeight(t.right)
      && (t.color == Red ==> !IsRed(t.left) && !IsRed(t.right))
  }

  // The context becomes a red-black tree with a black root when its hole is filled by a
  // good tree of black height h whose root is red or not, as given.
  ghost predicate GoodCtx(c: Ctx, h: nat, red: bool) {
    match c
    case Top => !red
    case LeftOf(_, k, s, up) =>
      && Good(s) && BlackHeight(s) == h
      && (k == Red ==> !red && !IsRed(s))
      && GoodCtx(up, h + Weight(k), k == Red)
    case RightOf(s, _, k, up) =>
      && Good(s) && BlackHeight(s) == h
      && (k == Red ==> !red && !IsRed(s))
      && GoodCtx(up, h + Weight(k), k == Red)
  }

  lemma {:induction false} PlugGood(c: Ctx, t: Tree)
    ensures Good(Plug(c, t)) && !IsRed(Plug(c, t))
       <==> Good(t) && GoodCtx(c, BlackHeight(t), IsRed(t))
  {
    match c
    case Top =>
    case LeftOf(p, k, r, up) => PlugGood(up, Node(t, p, k, r));
    case RightOf(l, p, k, up) => PlugGood(up, Node(l, p, k, t));
  }

  lemma {:induction false} GoodIsBalanced(t: Tree)
    requires Good(t)
    ensures Balanced(t)
  {
    if t.Node? {
      GoodIsBalanced(t.left);
      GoodIsBalanced(t.right);
    }
  }

  lemma {:induction false} PowerMonotone(m: nat, n: nat)
    requires m <= n
    ensures 1 <= Power(2, m) <= Power(2, n)
    decreases n
  {
    if m < n { PowerMonotone(m, n - 1); }
    else if 0 < m { PowerMonotone(m - 1, n - 1); }
  }

  lemma {:induction false} PowerAdd(m: nat, n: nat)
    ensures Power(2, m + n) == Power(2, m) * Power(2, n)
  {
    if m > 0 {
      PowerAdd(m - 1, n);
      assert m - 1 + n == m + n - 1;
    }
  }

  lemma {:induction false} HeightWithinTwiceBlack(t: Tree)
    requires Good(t)
    ensures Height(t) <= 2 * BlackHeight(t) + (if IsRed(t) then 1 else 0)
  {
    if t.Node? {
      HeightWithinTwiceBlack(t.left);
      HeightWithinTwiceBlack(t.right);
    }
  }

  lemma {:induction false} SizeAtLeastBlack(t: Tree)
    requires Good(t)
    ensures Power(2, BlackHeight(t)) <= |InOrder(t)| + 1
  {
    if t.Node? {
      SizeAtLeastBlack(t.left);
      SizeAtLeastBlack(t.right);
    }
  }

  /** A red-black tree of size n has height at most 2 * log2(n + 1). */
  lemma HeightLogarithmic(t: Tree)
    requires Good(t) && !IsRed(t)
    ensures Power(2, Height(t)) <= (|InOrder(t)| + 1) * (|InOrder(t)| + 1)
  {
    var b, n := BlackHeight(t), |InOrder(t)| + 1;
    HeightWithinTwiceBlack(t);
    SizeAtLeastBlack(t);
    PowerMonotone(Height(t), b + b);
    PowerAdd(b, b);
    Squares(Power(2, b), n);
  }

  lemma Squares(a: nat, b: nat)
    requires a <= b
    ensures a * a <= b * b
  {
    assert a * a <= a * b <= b * b;
  }

  // ---------- Order ----------

  ghost predicate Sorted(s: seq<RBNode>) {
    forall i, j :: 0 <= i < j < |s| ==> s[i].m_key <= s[j].m_key
  }

  lemma TailSorted(s: seq<RBNode>)
    requires Sorted(s) && s != []
    ensures Sorted(s[1..])
  {
  }

  // A new node goes in front of the first node whose key is not smaller.
  ghost function Insert(s: seq<RBNode>, n: RBNode): seq<RBNode> {
    if s == [] || s[0].m_key >= n.m_key then [n] + s else [s[0]] + Insert(s[1..], n)
  }

  lemma {:induction false} InsertBetween(a: seq<RBNode>, n: RBNode, b: seq<RBNode>)
    requires forall i :: 0 <= i < |a| ==> a[i].m_key < n.m_key
    requires b == [] || b[0].m_key >= n.m_key
    ensures Insert(a + b, n) == a + [n] + b
  {
    if a == [] {
      assert a + b == b;
    } else {
      InsertBetween(a[1..], n, b);
      assert (a + b)[1..] == a[1..] + b;
    }
  }

  lemma {:induction false} InsertSplits(s: seq<RBNode>, n: RBNode) returns (i: nat)
    ensures i <= |s| && Insert(s, n) == s[..i] + [n] + s[i..]
    ensures forall j :: 0 <= j < i ==> s[j].m_key < n.m_key
    ensures i < |s| ==> n.m_key <= s[i].m_key
  {
    if s == [] || s[0].m_key >= n.m_key {
      i := 0;
    } else {
      var j := InsertSplits(s[1..], n);
      i := j + 1;
      assert s[..i] == [s[0]] + s[1..][..j] && s[i..] == s[1..][j..];
    }
  }

  lemma InsertSorted(s: seq<RBNode>, n: RBNode)
    requires Sorted(s)
    ensures Sorted(Insert(s, n)) && |Insert(s, n)| == |s| + 1
  {
    var i := InsertSplits(s, n);
  }

  lemma InsertKeepsOthers(s: seq<RBNode>, n: RBNode)
    ensures multiset(Insert(s, n)) == multiset(s) + multiset{n}
  {
    var i := InsertSplits(s, n);
    SplitMultiset(s, i, n);
  }

  lemma SplitMultiset(s: seq<RBNode>, i: nat, n: RBNode)
    requires i <= |s|
    ensures multiset(s[..i] + [n] + s[i..]) == multiset(s) + multiset{n}
  {
    assert s == s[..i] + s[i..];
  }

  // ---------- Links ----------

  // What a node's mutable fields hold.
  datatype Rec = Rec(parent: RBNode?, left: RBNode?, right: RBNode?, color: Color, pos: Pos)

  // The fields of a set of nodes.
  type Store = map<RBNode, Rec>

  ghost function Root(t: Tree): RBNode? { if t.Nil? then null else t.node }

  // The node right above the hole, and the side the hole is on.
  ghost function Holder(c: Ctx): RBNode? { if c.Top? then null else c.node }

  ghost function Side(c: Ctx): Pos { if c.RightOf? then Pos.Right else Pos.Left }

  // The root of the whole tree, given what fills the hole.
  ghost function RootAt(c: Ctx, hole: RBNode?): RBNode? {
    if c.Top? then hole else RootAt(c.up, c.node)
  }

  // The position of a node without a parent is not kept up to date.
  ghost predicate Fits(r: Rec, parent: RBNode?, pos: Pos, k: Color, left: RBNode?, right: RBNode?) {
    r.parent == parent && r.color == k && r.left == left && r.right == right && (parent != null ==> r.pos == pos)
  }

  // The fields in s spell out tree t, hanging from the given parent on the given side.
  // (An equation with true, here and below, keeps the verifier from checking the parts of
  // this fact one by one wherever it is established.)
  ghost predicate Linked(s: Store, t: Tree, parent: RBNode?, pos: Pos) {
    true == match t
    case Nil => true
    case Node(l, n, k, r) =>
      && n in s && Fits(s[n], parent, pos, k, Root(l), Root(r))
      && n !in Nodes(l) && n !in Nodes(r) && Nodes(l) !! Nodes(r)
      && Linked(s, l, n, Pos.Left) && Linked(s, r, n, Pos.Right)
  }

  ghost predicate LinkedCtx(s: Store, c: Ctx, hole: RBNode?) {
    true == match c
    case Top => true
    case LeftOf(p, k, r, up) =>
      && p in s && Fits(s[p], Holder(up), Side(up), k, hole, Root(r))
      && p !in Nodes(r) && p !in CtxNodes(up) && Nodes(r) !! CtxNodes(up)
      && Linked(s, r, p, Pos.Right) && LinkedCtx(s, up, p)
    case RightOf(l, p, k, up) =>
      && p in s && Fits(s[p], Holder(up), Side(up), k, Root(l), hole)
      && p !in Nodes(l) && p !in CtxNodes(up) && Nodes(l) !! CtxNodes(up)
      && Linked(s, l, p, Pos.Left) && LinkedCtx(s, up, p)
  }

  // The fields in s spell out tree t inside context c.
  ghost predicate Config(s: Store, c: Ctx, t: Tree) {
    true == (Linked(s, t, Holder(c), Side(c)) && LinkedCtx(s, c, Root(t)) && Nodes(t) !! CtxNodes(c))
  }

  // The tree one step up: the hole's holder with t below it.
  ghost function Joined(c: Ctx, t: Tree): Tree
    requires !c.Top?
  {
    if c.LeftOf? then Node(t, c.node, c.color, c.right) else Node(c.left, c.node, c.color, t)
  }

  lemma ConfigUp(s: Store, c: Ctx, t: Tree)
    requires !c.Top?
    ensures Config(s, c, t) <==> Config(s, c.up, Joined(c, t))
  {
    assert Nodes(Joined(c, t)) == {c.node} + Nodes(t) + Nodes(if c.LeftOf? then c.right else c.left);
  }

  lemma ConfigDown(s: Store, c: Ctx, t: Tree)
    requires Config(s, c, t) && t.Node?
    ensures Config(s, LeftOf(t.node, t.color, t.right, c), t.left)
    ensures Config(s, RightOf(t.left, t.node, t.color, c), t.right)
  {
    ConfigUp(s, LeftOf(t.node, t.color, t.right, c), t.left);
    ConfigUp(s, RightOf(t.left, t.node, t.color, c), t.right);
  }

  lemma {:induction false} ConfigPlug(s: Store, c: Ctx, t: Tree)
    requires Config(s, c, t)
    ensures Linked(s, Plug(c, t), null, Pos.Left) && Root(Plug(c, t)) == RootAt(c, Root(t))
    decreases c
  {
    if !c.Top? {
      ConfigUp(s, c, t);
      ConfigPlug(s, c.up, Joined(c, t));
    }
  }

  // Every node of a tree is the root of a subtree seen from some context.
  lemma {:induction false} Locate(s: Store, c: Ctx, t: Tree, n: RBNode) returns (c': Ctx, t': Tree)
    requires Config(s, c, t) && n in Nodes(t)
    ensures Config(s, c', t') && t'.Node? && t'.node == n && Plug(c', t') == Plug(c, t)
    ensures RootAt(c', n) == RootAt(c, Root(t))
    decreases t
  {
    if t.node == n {
      c', t' := c, t;
    } else {
      ConfigDown(s, c, t);
      if n in Nodes(t.left) {
        c', t' := Locate(s, LeftOf(t.node, t.color, t.right, c), t.left, n);
      } else {
        c', t' := Locate(s, RightOf(t.left, t.node, t.color, c), t.right, n);
      }
    }
  }

  // Links depend only on the fields of the nodes involved.
  lemma {:induction false} LinkedFrame(s: Store, s': Store, t: Tree, parent: RBNode?, pos: Pos)
    requires Linked(s, t, parent, pos)
    requires forall n :: n in Nodes(t) ==> n in s' && n in s && s'[n] == s[n]
    ensures Linked(s', t, parent, pos)
  {
    if t.Node? {
      LinkedFrame(s, s', t.left, t.node, Pos.Left);
      LinkedFrame(s, s', t.right, t.node, Pos.Right);
    }
  }

  lemma {:induction false} LinkedCtxFrame(s: Store, s': Store, c: Ctx, hole: RBNode?)
    requires LinkedCtx(s, c, hole)
    requires forall n :: n in CtxNodes(c) ==> n in s' && n in s && s'[n] == s[n]
    ensures LinkedCtx(s', c, hole)
  {
    match c
    case Top =>
    case LeftOf(p, k, r, up) =>
      LinkedFrame(s, s', r, p, Pos.Right);
      LinkedCtxFrame(s, s', up, p);
    case RightOf(l, p, k, up) =>
      LinkedFrame(s, s', l, p, Pos.Left);
      LinkedCtxFrame(s, s', up, p);
  }

  // A subtree whose root was hung elsewhere.
  lemma Rehung(s: Store, s': Store, t: Tree, parent: RBNode?, pos: Pos, parent': RBNode?, pos': Pos)
    requires Linked(s, t, parent, pos)
    requires t.Node? ==> t.node in s' && s'[t.node] == s[t.node].(parent := parent', pos := pos')
    requires forall n :: n in Nodes(t) && n != Root(t) ==> n in s' && n in s && s'[n] == s[n]
    ensures Linked(s', t, parent', pos')
  {
    if t.Node? {
      LinkedFrame(s, s', t.left, t.node, Pos.Left);
      LinkedFrame(s, s', t.right, t.node, Pos.Right);
    }
  }

  ghost function Refilled(r: Rec, c: Ctx, hole: RBNode?): Rec {
    if c.LeftOf? then r.(left := hole) else r.(right := hole)
  }

  // A context whose hole was filled with something else.
  lemma CtxRefilled(s: Store, s': Store, c: Ctx, hole: RBNode?, hole': RBNode?)
    requires LinkedCtx(s, c, hole)
    requires !c.Top? ==> c.node in s && c.node in s' && s'[c.node] == Refilled(s[c.node], c, hole')
    requires forall n :: n in CtxNodes(c) && n != Holder(c) ==> n in s' && n in s && s'[n] == s[n]
    ensures LinkedCtx(s', c, hole')
  {
    match c
    case Top =>
    case LeftOf(p, k, r, up) =>
      LinkedFrame(s, s', r, p, Pos.Right);
      LinkedCtxFrame(s, s', up, p);
    case RightOf(l, p, k, up) =>
      LinkedFrame(s, s', l, p, Pos.Left);
      LinkedCtxFrame(s, s', up, p);
  }

  lemma {:induction false} LinkedNodes(s: Store, t: Tree, parent: RBNode?, pos: Pos)
    requires Linked(s, t, parent, pos)
    ensures Nodes(t) <= s.Keys
  {
    if t.Node? {
      LinkedNodes(s, t.left, t.node, Pos.Left);
      LinkedNodes(s, t.right, t.node, Pos.Right);
    }
  }

  lemma {:induction false} LinkedCtxNodes(s: Store, c: Ctx, hole: RBNode?)
    requires LinkedCtx(s, c, hole)
    ensures CtxNodes(c) <= s.Keys
  {
    match c
    case Top =>
    case LeftOf(p, k, r, up) =>
      LinkedNodes(s, r, p, Pos.Right);
      LinkedCtxNodes(s, up, p);
    case RightOf(l, p, k, up) =>
      LinkedNodes(s, l, p, Pos.Left);
      LinkedCtxNodes(s, up, p);
  }

  ghost function Sibling(c: Ctx): Tree
    requires !c.Top?
  {
    if c.LeftOf? then c.right else c.left
  }

  // The fields of the root of t, of its parent and of its sibling.
  lemma Around(s: Store, c: Ctx, t: Tree)
    requires Config(s, c, t)
    ensures t.Node? ==> t.node in s && t.node !in CtxNodes(c)
    ensures t.Node? ==> Fits(s[t.node], Holder(c), Side(c), t.color, Root(t.left), Root(t.right))
    ensures !c.Top? ==> c.node in s
    ensures c.LeftOf? ==> Fits(s[c.node], Holder(c.up), Side(c.up), c.color, Root(t), Root(c.right))
    ensures c.RightOf? ==> Fits(s[c.node], Holder(c.up), Side(c.up), c.color, Root(c.left), Root(t))
    ensures c.LeftOf? && c.right.Node? ==> c.right.node in s
    ensures c.LeftOf? && c.right.Node? ==>
              Fits(s[c.right.node], c.node, Pos.Right, c.right.color, Root(c.right.left), Root(c.right.right))
    ensures c.RightOf? && c.left.Node? ==> c.left.node in s
    ensures c.RightOf? && c.left.Node? ==>
              Fits(s[c.left.node], c.node, Pos.Left, c.left.color, Root(c.left.left), Root(c.left.right))
  {
  }

  lemma AroundChildren(s: Store, c: Ctx, t: Tree)
    requires Config(s, c, t) && t.Node?
    ensures t.node in s && s[t.node].left == Root(t.left) && s[t.node].right == Root(t.right)
    ensures t.left.Node? ==> t.left.node in s && s[t.left.node].parent == t.node && s[t.left.node].color == t.left.color
    ensures t.right.Node? ==>
      t.right.node in s && s[t.right.node].parent == t.node && s[t.right.node].color == t.right.color
  {
    ConfigDown(s, c, t);
  }

  lemma {:induction false} CountNodes(s: Store, t: Tree, parent: RBNode?, pos: Pos)
    requires Linked(s, t, parent, pos)
    ensures |Nodes(t)| == |InOrder(t)|
  {
    if t.Node? {
      CountNodes(s, t.left, t.node, Pos.Left);
      CountNodes(s, t.right, t.node, Pos.Right);
      assert |{t.node} + Nodes(t.left)| == 1 + |Nodes(t.left)|;
    }
  }

  // ---------- Recolouring and rotating ----------

  ghost function Painted(t: Tree, k: Color): Tree {
    if t.Nil? then Nil else t.(color := k)
  }

  lemma PaintedConfig(s: Store, c: Ctx, t: Tree, k: Color)
    requires Config(s, c, t) && t.Node?
    ensures Config(s[t.node := s[t.node].(color := k)], c, Painted(t, k))
  {
    var s' := s[t.node := s[t.node].(color := k)];
    LinkedNodes(s, t, Holder(c), Side(c));
    LinkedCtxNodes(s, c, t.node);
    LinkedFrame(s, s', t.left, t.node, Pos.Left);
    LinkedFrame(s, s', t.right, t.node, Pos.Right);
    LinkedCtxFrame(s, s', c, t.node);
  }

  // The tree after each rotation; a node that becomes the root is made black.
  ghost function RotatedLeft(c: Ctx, t: Tree): Tree
    requires t.Node? && t.right.Node?
  {
    Node(Node(t.left, t.node, t.color, t.right.left), t.right.node,
      if c.Top? then Black else t.right.color, t.right.right)
  }

  ghost function RotatedRight(c: Ctx, t: Tree): Tree
    requires t.Node? && t.left.Node?
  {
    Node(t.left.left, t.left.node, if c.Top? then Black else t.left.color, Node(t.left.right, t.node, t.color, t.right))
  }

  lemma Regroup3<T>(a: seq<T>, b: seq<T>, c: seq<T>, d: seq<T>, e: seq<T>)
    ensures a + b + (c + d + e) == a + b + c + d + e
  {
  }

  lemma RotatedLeftOrder(c: Ctx, t: Tree)
    requires t.Node? && t.right.Node?
    ensures InOrder(RotatedLeft(c, t)) == InOrder(t) && Nodes(RotatedLeft(c, t)) == Nodes(t)
  {
    Regroup3(InOrder(t.left), [t.node], InOrder(t.right.left), [t.right.node], InOrder(t.right.right));
  }

  lemma RotatedRightOrder(c: Ctx, t: Tree)
    requires t.Node? && t.left.Node?
    ensures InOrder(RotatedRight(c, t)) == InOrder(t) && Nodes(RotatedRight(c, t)) == Nodes(t)
  {
    Regroup3(InOrder(t.left.left), [t.left.node], InOrder(t.left.right), [t.node], InOrder(t.right));
  }

  // Single field updates.
  ghost function WithParent(s: Store, n: RBNode, p: RBNode?): (r: Store)
    requires n in s
    ensures r.Keys == s.Keys
  {
    s[n := s[n].(parent := p)]
  }

  ghost function WithLeft(s: Store, n: RBNode, p: RBNode?): (r: Store)
    requires n in s
    ensures r.Keys == s.Keys
  {
    s[n := s[n].(left := p)]
  }

  ghost function WithRight(s: Store, n: RBNode, p: RBNode?): (r: Store)
    requires n in s
    ensures r.Keys == s.Keys
  {
    s[n := s[n].(right := p)]
  }

  ghost function WithPos(s: Store, n: RBNode, p: Pos): (r: Store)
    requires n in s
    ensures r.Keys == s.Keys
  {
    s[n := s[n].(pos := p)]
  }

  ghost function WithColor(s: Store, n: RBNode, k: Color): (r: Store)
    requires n in s
    ensures r.Keys == s.Keys
  {
    s[n := s[n].(color := k)]
  }

  // The updates a rotation is made of: y becomes a child of n ...
  ghost function HungRight(s: Store, n: RBNode, y: RBNode?): (r: Store)
    requires n in s && (y != null ==> y in s)
    ensures r.Keys == s.Keys
  {
    var s1 := WithRight(s, n, y);
    if y == null then s1 else WithPos(WithParent(s1, y, n), y, Pos.Right)
  }

  ghost function HungLeft(s: Store, n: RBNode, y: RBNode?): (r: Store)
    requires n in s && (y != null ==> y in s)
    ensures r.Keys == s.Keys
  {
    var s1 := WithLeft(s, n, y);
    if y == null then s1 else WithPos(WithParent(s1, y, n), y, Pos.Left)
  }

  // ... and m moves up into the hole of c.
  ghost function MovedUp(s: Store, m: RBNode, c: Ctx): (r: Store)
    requires m in s && (!c.Top? ==> c.node in s)
    ensures r.Keys == s.Keys
  {
    if c.Top? then WithColor(WithParent(s, m, null), m, Black)
    else
      var s1 := WithPos(WithParent(s, m, c.node), m, Side(c));
      if c.LeftOf? then WithLeft(s1, c.node, m) else WithRight(s1, c.node, m)
  }

  ghost predicate Turnable(s: Store, c: Ctx, n: RBNode, m: RBNode, y: RBNode?) {
    n in s && m in s && n != m && (y != null ==> y in s && y != n && y != m)
    && (!c.Top? ==> c.node in s && c.node != n && c.node != m && c.node != y)
  }

  ghost function TurnedLeft(s: Store, c: Ctx, n: RBNode, m: RBNode, y: RBNode?): (r: Store)
    requires Turnable(s, c, n, m, y)
    ensures r.Keys == s.Keys
  {
    HungLeft(MovedUp(HungRight(s, n, y), m, c), m, n)
  }

  ghost function TurnedRight(s: Store, c: Ctx, n: RBNode, m: RBNode, y: RBNode?): (r: Store)
    requires Turnable(s, c, n, m, y)
    ensures r.Keys == s.Keys
  {
    HungRight(MovedUp(HungLeft(s, n, y), m, c), m, n)
  }

  // What a rotation to the left at t takes apart ...
  lemma LeftTurnParts(s: Store, c: Ctx, x: Tree, n: RBNode, k: Color, y: Tree, m: RBNode, k': Color, z: Tree)
    requires Config(s, c, Node(x, n, k, Node(y, m, k', z)))
    ensures LinkedCtx(s, c, n) && Linked(s, x, n, Pos.Left) && Linked(s, y, m, Pos.Left) && Linked(s, z, m, Pos.Right)
    ensures n in s && s[n].left == Root(x) && s[n].right == m && s[n].color == k
    ensures m in s && s[m].left == Root(y) && s[m].right == Root(z) && s[m].color == k'
    ensures s[n].parent == Holder(c) && (!c.Top? ==> s[n].pos == Side(c))
    ensures Apart(s, c, x, n, y, m, z) && Turnable(s, c, n, m, Root(y))
  {
    var t := Node(y, m, k', z);
    assert Linked(s, t, n, Pos.Right);
    assert Nodes(t) == {m} + Nodes(y) + Nodes(z);
    LinkedNodes(s, Node(x, n, k, t), Holder(c), Side(c));
    LinkedCtxNodes(s, c, n);
  }

  ghost predicate Apart(s: Store, c: Ctx, x: Tree, n: RBNode, y: Tree, m: RBNode, z: Tree) {
    true == (
    && Nodes(x) !! Nodes(y) && Nodes(x) !! Nodes(z) && Nodes(y) !! Nodes(z)
    && Nodes(x) !! CtxNodes(c) && Nodes(y) !! CtxNodes(c) && Nodes(z) !! CtxNodes(c)
    && n !in Nodes(x) && n !in Nodes(y) && n !in Nodes(z) && n !in CtxNodes(c)
    && m !in Nodes(x) && m !in Nodes(y) && m !in Nodes(z) && m !in CtxNodes(c) && n != m
    && Nodes(x) <= s.Keys && Nodes(y) <= s.Keys && Nodes(z) <= s.Keys && CtxNodes(c) <= s.Keys)
  }

  // ... and puts together.
  lemma LeftTurnWhole(s: Store, c: Ctx, x: Tree, n: RBNode, k: Color, y: Tree, m: RBNode, k': Color, z: Tree)
    requires Apart(s, c, x, n, y, m, z) && n in s && m in s
    requires LinkedCtx(s, c, m) && Linked(s, x, n, Pos.Left) && Linked(s, y, n, Pos.Right) && Linked(s, z, m, Pos.Right)
    requires Fits(s[n], m, Pos.Left, k, Root(x), Root(y)) && Fits(s[m], Holder(c), Side(c), k', n, Root(z))
    ensures Config(s, c, Node(Node(x, n, k, y), m, k', z))
  {
    assert Nodes(Node(x, n, k, y)) == {n} + Nodes(x) + Nodes(y);
    assert Linked(s, Node(x, n, k, y), m, Pos.Left);
  }

  lemma LeftTurnFirst(s: Store, c: Ctx, x: Tree, n: RBNode, y: Tree, m: RBNode, z: Tree)
    requires Linked(s, x, n, Pos.Left) && Apart(s, c, x, n, y, m, z) && Turnable(s, c, n, m, Root(y))
    ensures Linked(TurnedLeft(s, c, n, m, Root(y)), x, n, Pos.Left)
  {
    LinkedFrame(s, TurnedLeft(s, c, n, m, Root(y)), x, n, Pos.Left);
  }

  lemma LeftTurnLast(s: Store, c: Ctx, x: Tree, n: RBNode, y: Tree, m: RBNode, z: Tree)
    requires Linked(s, z, m, Pos.Right) && Apart(s, c, x, n, y, m, z) && Turnable(s, c, n, m, Root(y))
    ensures Linked(TurnedLeft(s, c, n, m, Root(y)), z, m, Pos.Right)
  {
    LinkedFrame(s, TurnedLeft(s, c, n, m, Root(y)), z, m, Pos.Right);
  }

  lemma LeftTurnMiddle(s: Store, c: Ctx, x: Tree, n: RBNode, y: Tree, m: RBNode, z: Tree)
    requires Linked(s, y, m, Pos.Left) && Apart(s, c, x, n, y, m, z) && Turnable(s, c, n, m, Root(y))
    ensures Linked(TurnedLeft(s, c, n, m, Root(y)), y, n, Pos.Right)
  {
    Rehung(s, TurnedLeft(s, c, n, m, Root(y)), y, m, Pos.Left, n, Pos.Right);
  }

  lemma LeftTurnTrees(s: Store, c: Ctx, x: Tree, n: RBNode, y: Tree, m: RBNode, z: Tree)
    requires Linked(s, x, n, Pos.Left) && Linked(s, y, m, Pos.Left) && Linked(s, z, m, Pos.Right)
    requires Apart(s, c, x, n, y, m, z) && Turnable(s, c, n, m, Root(y))
    ensures var s' := TurnedLeft(s, c, n, m, Root(y));
      Linked(s', x, n, Pos.Left) && Linked(s', y, n, Pos.Right) && Linked(s', z, m, Pos.Right)
  {
    hide Linked, Apart, Turnable, TurnedLeft;
    LeftTurnFirst(s, c, x, n, y, m, z);
    LeftTurnLast(s, c, x, n, y, m, z);
    LeftTurnMiddle(s, c, x, n, y, m, z);
  }

  lemma LeftTurnSpine(s: Store, c: Ctx, x: Tree, n: RBNode, y: Tree, m: RBNode, z: Tree)
    requires LinkedCtx(s, c, n) && Apart(s, c, x, n, y, m, z) && Turnable(s, c, n, m, Root(y))
    ensures var s' := TurnedLeft(s, c, n, m, Root(y));
      && LinkedCtx(s', c, m)
      && s'[n] == s[n].(parent := m, right := Root(y), pos := Pos.Left)
      && Fits(s'[m], Holder(c), Side(c), if c.Top? then Black else s[m].color, n, s[m].right)
  {
    CtxRefilled(s, TurnedLeft(s, c, n, m, Root(y)), c, n, m);
  }

  lemma LeftTurnConfig(s: Store, c: Ctx, t: Tree)
    requires Config(s, c, t) && t.Node? && t.right.Node?
    ensures Turnable(s, c, t.node, t.right.node, Root(t.right.left))
    ensures Config(TurnedLeft(s, c, t.node, t.right.node, Root(t.right.left)), c, RotatedLeft(c, t))
    ensures s[t.node].right == t.right.node && s[t.right.node].left == Root(t.right.left)
    ensures var s1 := HungRight(s, t.node, Root(t.right.left));
      s1[t.node].parent == Holder(c) && (!c.Top? ==> s1[t.node].pos == Side(c))
  {
    var x, n, y, m, z := t.left, t.node, t.right.left, t.right.node, t.right.right;
    LeftTurnParts(s, c, x, n, t.color, y, m, t.right.color, z);
    LeftTurnTrees(s, c, x, n, y, m, z);
    LeftTurnSpine(s, c, x, n, y, m, z);
    LeftTurnWhole(TurnedLeft(s, c, n, m, Root(y)), c, x, n, t.color, y, m, if c.Top? then Black else t.right.color, z);
  }

  lemma RightTurnParts(s: Store, c: Ctx, x: Tree, m: RBNode, k': Color, y: Tree, n: RBNode, k: Color, z: Tree)
    requires Config(s, c, Node(Node(x, m, k', y), n, k, z))
    ensures LinkedCtx(s, c, n) && Linked(s, x, m, Pos.Left) && Linked(s, y, m, Pos.Right) && Linked(s, z, n, Pos.Right)
    ensures n in s && s[n].left == m && s[n].right == Root(z) && s[n].color == k
    ensures m in s && s[m].left == Root(x) && s[m].right == Root(y) && s[m].color == k'
    ensures s[n].parent == Holder(c) && (!c.Top? ==> s[n].pos == Side(c))
    ensures Apart(s, c, x, n, y, m, z) && Turnable(s, c, n, m, Root(y))
  {
    var t := Node(x, m, k', y);
    assert Linked(s, t, n, Pos.Left);
    assert Nodes(t) == {m} + Nodes(x) + Nodes(y);
    LinkedNodes(s, Node(t, n, k, z), Holder(c), Side(c));
    LinkedCtxNodes(s, c, n);
  }

  lemma RightTurnFirst(s: Store, c: Ctx, x: Tree, m: RBNode, y: Tree, n: RBNode, z: Tree)
    requires Linked(s, x, m, Pos.Left) && Apart(s, c, x, n, y, m, z) && Turnable(s, c, n, m, Root(y))
    ensures Linked(TurnedRight(s, c, n, m, Root(y)), x, m, Pos.Left)
  {
    LinkedFrame(s, TurnedRight(s, c, n, m, Root(y)), x, m, Pos.Left);
  }

  lemma RightTurnLast(s: Store, c: Ctx, x: Tree, m: RBNode, y: Tree, n: RBNode, z: Tree)
    requires Linked(s, z, n, Pos.Right) && Apart(s, c, x, n, y, m, z) && Turnable(s, c, n, m, Root(y))
    ensures Linked(TurnedRight(s, c, n, m, Root(y)), z, n, Pos.Right)
  {
    LinkedFrame(s, TurnedRight(s, c, n, m, Root(y)), z, n, Pos.Right);
  }

  lemma RightTurnMiddle(s: Store, c: Ctx, x: Tree, m: RBNode, y: Tree, n: RBNode, z: Tree)
    requires Linked(s, y, m, Pos.Right) && Apart(s, c, x, n, y, m, z) && Turnable(s, c, n, m, Root(y))
    ensures Linked(TurnedRight(s, c, n, m, Root(y)), y, n, Pos.Left)
  {
    Rehung(s, TurnedRight(s, c, n, m, Root(y)), y, m, Pos.Right, n, Pos.Left);
  }

  lemma RightTurnTrees(s: Store, c: Ctx, x: Tree, m: RBNode, y: Tree, n: RBNode, z: Tree)
    requires Linked(s, x, m, Pos.Left) && Linked(s, y, m, Pos.Right) && Linked(s, z, n, Pos.Right)
    requires Apart(s, c, x, n, y, m, z) && Turnable(s, c, n, m, Root(y))
    ensures var s' := TurnedRight(s, c, n, m, Root(y));
      Linked(s', x, m, Pos.Left) && Linked(s', y, n, Pos.Left) && Linked(s', z, n, Pos.Right)
  {
    hide Linked, Apart, Turnable, TurnedRight;
    RightTurnFirst(s, c, x, m, y, n, z);
    RightTurnLast(s, c, x, m, y, n, z);
    RightTurnMiddle(s, c, x, m, y, n, z);
  }

  lemma RightTurnSpine(s: Store, c: Ctx, x: Tree, m: RBNode, y: Tree, n: RBNode, z: Tree)
    requires LinkedCtx(s, c, n) && Apart(s, c, x, n, y, m, z) && Turnable(s, c, n, m, Root(y))
    ensures var s' := TurnedRight(s, c, n, m, Root(y));
      && LinkedCtx(s', c, m)
      && s'[n] == s[n].(parent := m, left := Root(y), pos := Pos.Right)
      && Fits(s'[m], Holder(c), Side(c), if c.Top? then Black else s[m].color, s[m].left, n)
  {
    CtxRefilled(s, TurnedRight(s, c, n, m, Root(y)), c, n, m);
  }

  lemma RightTurnWhole(s: Store, c: Ctx, x: Tree, m: RBNode, k': Color, y: Tree, n: RBNode, k: Color, z: Tree)
    requires Apart(s, c, x, n, y, m, z) && n in s && m in s
    requires LinkedCtx(s, c, m) && Linked(s, x, m, Pos.Left) && Linked(s, y, n, Pos.Left) && Linked(s, z, n, Pos.Right)
    requires Fits(s[n], m, Pos.Right, k, Root(y), Root(z)) && Fits(s[m], Holder(c), Side(c), k', Root(x), n)
    ensures Config(s, c, Node(x, m, k', Node(y, n, k, z)))
  {
    assert Nodes(Node(y, n, k, z)) == {n} + Nodes(y) + Nodes(z);
    assert Linked(s, Node(y, n, k, z), m, Pos.Right);
  }

  lemma RightTurnConfig(s: Store, c: Ctx, t: Tree)
    requires Config(s, c, t) && t.Node? && t.left.Node?
    ensures Turnable(s, c, t.node, t.left.node, Root(t.left.right))
    ensures Config(TurnedRight(s, c, t.node, t.left.node, Root(t.left.right)), c, RotatedRight(c, t))
    ensures s[t.node].left == t.left.node && s[t.left.node].right == Root(t.left.right)
    ensures var s1 := HungLeft(s, t.node, Root(t.left.right));
      s1[t.node].parent == Holder(c) && (!c.Top? ==> s1[t.node].pos == Side(c))
  {
    var x, m, y, n, z := t.left.left, t.left.node, t.left.right, t.node, t.right;
    RightTurnParts(s, c, x, m, t.left.color, y, n, t.color, z);
    RightTurnTrees(s, c, x, m, y, n, z);
    RightTurnSpine(s, c, x, m, y, n, z);
    RightTurnWhole(TurnedRight(s, c, n, m, Root(y)), c, x, m, if c.Top? then Black else t.left.color, y, n, t.color, z);
  }

  // ---------- Repair after an insertion ----------

  ghost function NewSibling(c: Ctx, s: Tree): Ctx
    requires !c.Top?
  {
    if c.LeftOf? then c.(right := s) else c.(left := s)
  }

  // The rotation at the grandparent that repairs a red node below a red parent:
  // where the node ends up and what is below it.
  ghost function RotatedUp(c: Ctx, t: Tree): (r: (Ctx, Tree))
    requires !c.Top? && !c.up.Top? && t.Node?
  {
    var p, g, up, s, a := c.node, c.up.node, c.up.up, Sibling(c), Sibling(c.up);
    match (c, c.up)
    case (RightOf(_, _, _, _), RightOf(_, _, _, _)) => (RightOf(Node(a, g, Red, s), p, Black, up), Painted(t, Red))
    case (LeftOf(_, _, _, _), LeftOf(_, _, _, _)) => (LeftOf(p, Black, Node(s, g, Red, a), up), Painted(t, Red))
    case (RightOf(_, _, _, _), LeftOf(_, _, _, _)) =>
      (up, Node(Node(s, p, Red, t.left), t.node, Black, Node(t.right, g, Red, a)))
    case (LeftOf(_, _, _, _), RightOf(_, _, _, _)) =>
      (up, Node(Node(a, g, Red, t.left), t.node, Black, Node(t.right, p, Red, s)))
  }

  // The colour flip: parent and aunt black, grandparent red.
  ghost function Flipped(c: Ctx): Ctx
    requires !c.Top? && !c.up.Top?
  {
    c.(color := Black, up := NewSibling(c.up, Painted(Sibling(c.up), Black)).(color := Red))
  }

  ghost function Corrected(c: Ctx, t: Tree): (r: (Ctx, Tree))
    requires !c.Top? && !c.up.Top? && t.Node?
  {
    if IsRed(Sibling(c.up)) then (Flipped(c), t) else RotatedUp(c, t)
  }

  // At most one red node has a red parent: the root of t, or else that parent.
  ghost predicate Repairable(c: Ctx, t: Tree) {
    Good(t) &&
    (GoodCtx(c, BlackHeight(t), false) ||
     (!c.Top? && !IsRed(t) && c.color == Red
      && Good(Sibling(c)) && BlackHeight(Sibling(c)) == BlackHeight(t) && !IsRed(Sibling(c))
      && GoodCtx(c.up, BlackHeight(t), false)))
  }

  lemma Relaxed(c: Ctx, h: nat)
    ensures GoodCtx(c, h, true) ==> GoodCtx(c, h, false)
  {
  }

  lemma RepairableUp(c: Ctx, t: Tree)
    requires Repairable(c, t) && !c.Top? && !(IsRed(t) && c.color == Red)
    ensures Repairable(c.up, Joined(c, t))
  {
    if GoodCtx(c, BlackHeight(t), false) {
      Relaxed(c.up, BlackHeight(t));
      assert Good(Joined(c, t));
    }
  }

  // What one step leaves: no violation any more, or the only one further up.
  ghost predicate Repaired(c: Ctx, t: Tree)
    requires !c.Top? && !c.up.Top? && t.Node?
  {
    var (c', t') := Corrected(c, t);
    && t'.Node? && t'.node == t.node && Depth(c') <= Depth(c)
    && (c'.Top? ==> Good(t') && !IsRed(t'))
    && (!c'.Top? ==> Repairable(c'.up, Joined(c', t')))
  }

  lemma RedAuntRepairs(c: Ctx, t: Tree)
    requires Repairable(c, t) && IsRed(t) && !c.Top? && c.color == Red && !c.up.Top? && IsRed(Sibling(c.up))
    ensures Repaired(c, t)
  {
    var h, g := BlackHeight(t), c.up;
    assert GoodCtx(g, h, true);
    var (c', t') := Corrected(c, t);
    assert Good(Joined(c', t')) && BlackHeight(Joined(c', t')) == h + 1;
    assert Good(Sibling(c'.up)) && BlackHeight(Sibling(c'.up)) == h + 1;
  }

  lemma OuterRepairs(c: Ctx, t: Tree)
    requires Repairable(c, t) && IsRed(t) && !c.Top? && c.color == Red && !c.up.Top? && !IsRed(Sibling(c.up))
    requires c.LeftOf? == c.up.LeftOf?
    ensures Repaired(c, t)
  {
    var h, g := BlackHeight(t), c.up;
    assert GoodCtx(g, h, true);
    assert g.color == Black && GoodCtx(g.up, h + 1, false);
    var (c', t') := Corrected(c, t);
    assert Good(Sibling(c')) && BlackHeight(Sibling(c')) == h;
    assert Good(Joined(c', t')) && BlackHeight(Joined(c', t')) == h + 1 && c'.up == g.up;
  }

  lemma InnerRepairs(c: Ctx, t: Tree)
    requires Repairable(c, t) && IsRed(t) && !c.Top? && c.color == Red && !c.up.Top? && !IsRed(Sibling(c.up))
    requires c.LeftOf? != c.up.LeftOf?
    ensures Repaired(c, t)
  {
    var h, g := BlackHeight(t), c.up;
    assert GoodCtx(g, h, true);
    assert g.color == Black && GoodCtx(g.up, h + 1, false);
    var (c', t') := Corrected(c, t);
    assert Good(t'.left) && Good(t'.right) && Good(t') && BlackHeight(t') == h + 1 && c' == g.up;
    if !c'.Top? {
      RepairableUp(c', t');
    }
  }

  // Correcting moves the defect two levels up or removes it.
  lemma CorrectedRepairs(c: Ctx, t: Tree)
    requires Repairable(c, t) && IsRed(t) && !c.Top? && c.color == Red
    ensures !c.up.Top? && Repaired(c, t)
  {
    assert GoodCtx(c.up, BlackHeight(t), true);
    hide Repaired, Repairable;
    if IsRed(Sibling(c.up)) {
      RedAuntRepairs(c, t);
    } else if c.LeftOf? == c.up.LeftOf? {
      OuterRepairs(c, t);
    } else {
      InnerRepairs(c, t);
    }
  }

  // The corrected tree seen from above the grandparent.
  ghost function CorrectedTop(c: Ctx, t: Tree): Tree
    requires !c.Top? && !c.up.Top? && t.Node?
  {
    var (c', t') := Corrected(c, t);
    if IsRed(Sibling(c.up)) then Joined(c'.up, Joined(c', t'))
    else if c.LeftOf? == c.up.LeftOf? then Joined(c', t') else t'
  }

  lemma CorrectedKeepsHere(c: Ctx, t: Tree)
    requires !c.Top? && !c.up.Top? && t.Node?
    ensures InOrder(CorrectedTop(c, t)) == InOrder(Joined(c.up, Joined(c, t)))
    ensures Nodes(CorrectedTop(c, t)) == Nodes(Joined(c.up, Joined(c, t)))
  {
    var s, a := InOrder(Sibling(c)), InOrder(Sibling(c.up));
    var n, p, g := [t.node], [c.node], [c.up.node];
    var l, r := InOrder(t.left), InOrder(t.right);
    var j := Joined(c, t);
    assert InOrder(t) == l + n + r && InOrder(j) == if c.LeftOf? then InOrder(t) + p + s else s + p + InOrder(t);
    assert Nodes(t) == {t.node} + Nodes(t.left) + Nodes(t.right);
    assert Nodes(j) == {c.node} + Nodes(t) + Nodes(Sibling(c));
    assert Nodes(Joined(c.up, j)) == {c.up.node} + Nodes(j) + Nodes(Sibling(c.up));
    if !IsRed(Sibling(c.up)) {
      match (c, c.up)
      case (RightOf(_, _, _, _), RightOf(_, _, _, _)) => Regroup3(a, g, s, p, InOrder(t));
      case (LeftOf(_, _, _, _), LeftOf(_, _, _, _)) => Regroup3(InOrder(t), p, s, g, a);
      case (RightOf(_, _, _, _), LeftOf(_, _, _, _)) => Regroup3(s, p, l, n, r); Regroup3(s + p + l, n, r, g, a);
      case (LeftOf(_, _, _, _), RightOf(_, _, _, _)) => Regroup3(l, n, r, p, s); Regroup3(a, g, l, n, r + p + s);
    }
  }

  lemma CorrectedKeeps(c: Ctx, t: Tree)
    requires !c.Top? && !c.up.Top? && t.Node?
    ensures var (c', t') := Corrected(c, t);
      InOrder(Plug(c', t')) == InOrder(Plug(c, t)) && Nodes(Plug(c', t')) == Nodes(Plug(c, t))
  {
    var (c', t') := Corrected(c, t);
    var up := c.up.up;
    var before, now := Joined(c.up, Joined(c, t)), CorrectedTop(c, t);
    assert Plug(c, t) == Plug(c.up, Joined(c, t)) == Plug(up, before);
    assert Plug(c', t') == Plug(up, now);
    CorrectedKeepsHere(c, t);
    PlugInOrder(up, before);
    PlugInOrder(up, now);
    PlugNodes(up, before);
    PlugNodes(up, now);
  }

  lemma {:induction false} RootAtInside(c: Ctx, hole: RBNode?)
    requires !c.Top?
    ensures RootAt(c, hole) in CtxNodes(c)
  {
    if !c.up.Top? { RootAtInside(c.up, c.node); }
  }

  // A new red leaf hung below a node that has no child on that side.
  ghost function WithLeaf(s: Store, p: RBNode, n: RBNode, pos: Pos): Store
    requires p in s
  {
    var s1 := s[n := Rec(p, null, null, Red, pos)];
    if pos == Pos.Left then WithLeft(s1, p, n) else WithRight(s1, p, n)
  }

  ghost function Leaf(n: RBNode): Tree { Node(Nil, n, Red, Nil) }

  lemma LeafLinked(s: Store, n: RBNode, parent: RBNode, pos: Pos)
    requires n in s && Fits(s[n], parent, pos, Red, null, null)
    ensures Linked(s, Leaf(n), parent, pos) && Nodes(Leaf(n)) == {n}
  {
    assert Linked(s, Nil, n, Pos.Left) && Linked(s, Nil, n, Pos.Right);
    assert Nodes(Nil) == {};
  }

  lemma LeafHungLeft(s: Store, c: Ctx, t: Tree, n: RBNode)
    requires Config(s, c, t) && t.Node? && n !in s && t.left.Nil?
    ensures t.node in s
    ensures Config(WithLeaf(s, t.node, n, Pos.Left), LeftOf(t.node, t.color, t.right, c), Leaf(n))
  {
    var p, s' := t.node, WithLeaf(s, t.node, n, Pos.Left);
    Around(s, c, t);
    LinkedNodes(s, t, Holder(c), Side(c));
    LinkedCtxNodes(s, c, p);
    LinkedCtxFrame(s, s', c, p);
    LinkedFrame(s, s', t.right, p, Pos.Right);
    LeafLinked(s', n, p, Pos.Left);
    assert LinkedCtx(s', LeftOf(p, t.color, t.right, c), n);
  }

  lemma LeafHungRight(s: Store, c: Ctx, t: Tree, n: RBNode)
    requires Config(s, c, t) && t.Node? && n !in s && t.right.Nil?
    ensures t.node in s
    ensures Config(WithLeaf(s, t.node, n, Pos.Right), RightOf(t.left, t.node, t.color, c), Leaf(n))
  {
    var p, s' := t.node, WithLeaf(s, t.node, n, Pos.Right);
    Around(s, c, t);
    LinkedNodes(s, t, Holder(c), Side(c));
    LinkedCtxNodes(s, c, p);
    LinkedCtxFrame(s, s', c, p);
    LinkedFrame(s, s', t.left, p, Pos.Left);
    LeafLinked(s', n, p, Pos.Right);
    assert LinkedCtx(s', RightOf(t.left, p, t.color, c), n);
  }

  // The place of key n is inside the hole of c.
  ghost predicate Brackets(c: Ctx, n: RBNode) {
    && (forall i :: 0 <= i < |Before(c)| ==> Before(c)[i].m_key < n.m_key)
    && (forall i :: 0 <= i < |After(c)| ==> n.m_key <= After(c)[i].m_key)
  }

  lemma BracketsRight(c: Ctx, t: Tree, n: RBNode)
    requires Sorted(InOrder(Plug(c, t))) && Brackets(c, n) && t.Node? && n.m_key > t.node.m_key
    ensures Brackets(RightOf(t.left, t.node, t.color, c), n)
  {
    var c' := RightOf(t.left, t.node, t.color, c);
    var s, b := InOrder(Plug(c, t)), Before(c');
    PlugInOrder(c', t.right);
    assert Plug(c', t.right) == Plug(c, t);
    var last := |b| - 1;
    assert s[last] == b[last] == t.node;
    forall i | 0 <= i < |b| ensures b[i].m_key < n.m_key {
      assert s[i] == b[i];
    }
  }

  lemma BracketsLeft(c: Ctx, t: Tree, n: RBNode)
    requires Sorted(InOrder(Plug(c, t))) && Brackets(c, n) && t.Node? && n.m_key <= t.node.m_key
    ensures Brackets(LeftOf(t.node, t.color, t.right, c), n)
  {
    var c' := LeftOf(t.node, t.color, t.right, c);
    var s, a := InOrder(Plug(c, t)), After(c');
    PlugInOrder(c', t.left);
    assert Plug(c', t.left) == Plug(c, t);
    var first := |s| - |a|;
    assert s[first] == a[0] == t.node;
    forall i | 0 <= i < |a| ensures n.m_key <= a[i].m_key {
      assert s[first + i] == a[i];
    }
  }

  lemma LeafInOrder(c: Ctx, n: RBNode)
    requires Brackets(c, n)
    ensures InOrder(Plug(c, Leaf(n))) == Insert(InOrder(Plug(c, Nil)), n)
    ensures Nodes(Plug(c, Leaf(n))) == Nodes(Plug(c, Nil)) + {n}
  {
    PlugInOrder(c, Leaf(n));
    PlugInOrder(c, Nil);
    PlugNodes(c, Leaf(n));
    PlugNodes(c, Nil);
    assert InOrder(Leaf(n)) == [n] && Before(c) + [] + After(c) == Before(c) + After(c);
    InsertBetween(Before(c), n, After(c));
  }

  // The links spell out a red-black tree with a black root.
  ghost predicate RedBlack(s: Store, t: Tree) {
    true == (Config(s, Top, t) && s.Keys == Nodes(t) && Good(t) && !IsRed(t))
  }

  // Ready to descend into t with a new node whose place is there.
  ghost predicate Insertable(s: Store, c: Ctx, t: Tree, n: RBNode) {
    true == (
      && Config(s, c, t) && s.Keys == Nodes(Plug(c, t)) && n !in s
      && Good(t) && GoodCtx(c, BlackHeight(t), IsRed(t))
      && Sorted(InOrder(Plug(c, t))) && Brackets(c, n))
  }

  // The new node is in its place in what was tree `was`; at worst its parent is red too.
  ghost predicate Placed(s: Store, c: Ctx, t: Tree, n: RBNode, was: Tree) {
    true == (
      && Config(s, c, t) && s.Keys == Nodes(Plug(c, t)) && t.Node? && t.node == n
      && InOrder(Plug(c, t)) == Insert(InOrder(was), n)
      && Good(t) && GoodCtx(c, BlackHeight(t), false))
  }

  lemma InsertableStart(s: Store, t: Tree, n: RBNode)
    requires RedBlack(s, t) && Sorted(InOrder(t)) && n !in s
    ensures Insertable(s, Top, t, n)
  {
  }

  lemma InsertableBelow(s: Store, c: Ctx, t: Tree, n: RBNode)
    requires Insertable(s, c, t, n) && t.Node?
    ensures n.m_key > t.node.m_key ==> Insertable(s, RightOf(t.left, t.node, t.color, c), t.right, n)
    ensures n.m_key <= t.node.m_key ==> Insertable(s, LeftOf(t.node, t.color, t.right, c), t.left, n)
  {
    ConfigDown(s, c, t);
    if n.m_key > t.node.m_key {
      BracketsRight(c, t, n);
    } else {
      BracketsLeft(c, t, n);
    }
  }

  lemma LeafPlaced(s: Store, s': Store, c: Ctx, n: RBNode)
    requires Insertable(s, c, Nil, n) && Config(s', c, Leaf(n)) && s'.Keys == s.Keys + {n}
    ensures Placed(s', c, Leaf(n), n, Plug(c, Nil))
    ensures !c.Top? && c.color == Black ==> GoodCtx(c, BlackHeight(Leaf(n)), IsRed(Leaf(n)))
  {
    LeafInOrder(c, n);
    assert Good(Leaf(n)) && BlackHeight(Leaf(n)) == 0;
  }

  lemma RepairedPlaced(s: Store, t: Tree, n: RBNode, was: Tree) returns (c': Ctx, t': Tree)
    requires RedBlack(s, t) && n in s && InOrder(t) == Insert(InOrder(was), n)
    ensures Placed(s, c', t', n, was) && RootAt(c', n) == Root(t) && GoodCtx(c', BlackHeight(t'), IsRed(t'))
    ensures Plug(c', t') == t
  {
    c', t' := Locate(s, Top, t, n);
    PlugGood(c', t');
    Relaxed(c', BlackHeight(t'));
  }

  // ---------- Repair before a removal ----------

  // One black node is missing below c: it wants a subtree of black height h + 1.
  ghost predicate Short(c: Ctx, h: nat) { true == GoodCtx(c, h + 1, false) }

  lemma ShortHasSibling(c: Ctx, h: nat)
    requires Short(c, h) && !c.Top?
    ensures Sibling(c).Node?
  {
  }

  // The far and the near child of the sibling, seen from the hole.
  ghost function Far(c: Ctx): Tree
    requires !c.Top? && Sibling(c).Node?
  {
    if c.LeftOf? then Sibling(c).right else Sibling(c).left
  }

  ghost function Near(c: Ctx): Tree
    requires !c.Top? && Sibling(c).Node?
  {
    if c.LeftOf? then Sibling(c).left else Sibling(c).right
  }

  // Parent and sibling with new colours.
  ghost function Recolored(c: Ctx, parent: Color, sibling: Color): Ctx
    requires !c.Top?
  {
    if c.LeftOf? then LeftOf(c.node, parent, Painted(c.right, sibling), c.up)
    else RightOf(Painted(c.left, sibling), c.node, parent, c.up)
  }

  lemma RecoloredSides(c: Ctx, parent: Color, sibling: Color)
    requires !c.Top?
    ensures SameSides(c, Recolored(c, parent, sibling))
  {
    assert InOrder(Painted(Sibling(c), sibling)) == InOrder(Sibling(c));
    assert Nodes(Painted(Sibling(c), sibling)) == Nodes(Sibling(c));
  }

  // How far the repair can still go: only black parents pass the defect on.
  ghost function Climb(c: Ctx): nat {
    if c.Top? || c.color == Red then 0 else Depth(c)
  }

  ghost function NephewWork(c: Ctx): nat {
    if !c.Top? && Sibling(c).Node? && !IsRed(Far(c)) then 1 else 0
  }

  // The sibling is red: the context after rotating it above the parent.
  ghost function RedSiblingUp(c: Ctx): Ctx
    requires !c.Top? && Sibling(c).Node?
  {
    var s := Sibling(c);
    if c.LeftOf? then LeftOf(c.node, Red, s.left, LeftOf(s.node, Black, s.right, c.up))
    else RightOf(s.right, c.node, Red, RightOf(s.left, s.node, Black, c.up))
  }

  // What the nephews' fields say about their colours.
  lemma AroundSibling(s: Store, c: Ctx, t: Tree)
    requires Config(s, c, t) && !c.Top? && Sibling(c).Node?
    ensures var b := Sibling(c);
      && (b.left.Node? ==> b.left.node in s && s[b.left.node].color == b.left.color)
      && (b.right.Node? ==> b.right.node in s && s[b.right.node].color == b.right.color)
  {
    var b := Sibling(c);
    ConfigUp(s, c, t);
    ConfigDown(s, c.up, Joined(c, t));
    var cs := if c.LeftOf? then RightOf(t, c.node, c.color, c.up) else LeftOf(c.node, c.color, t, c.up);
    ConfigDown(s, cs, b);
  }

  // The context after a rotation that brings the parent down on the hole's side.
  ghost function ParentRotated(c: Ctx): Ctx
    requires !c.Top? && Sibling(c).Node?
  {
    var s := Sibling(c);
    var k := if c.up.Top? then Black else s.color;
    if c.LeftOf? then LeftOf(c.node, c.color, s.left, LeftOf(s.node, k, s.right, c.up))
    else RightOf(s.right, c.node, c.color, RightOf(s.left, s.node, k, c.up))
  }

  // The near nephew is red and the far one is not: the near one becomes the sibling.
  ghost function NearNephewUp(c: Ctx): Ctx
    requires !c.Top? && Sibling(c).Node? && Near(c).Node?
  {
    var s, m := Sibling(c), Near(c);
    if c.LeftOf? then c.(right := Node(m.left, m.node, Black, Node(m.right, s.node, Red, s.right)))
    else c.(left := Node(Node(s.left, s.node, Red, m.left), m.node, Black, m.right))
  }

  // The far nephew is red: the sibling goes above the parent, which becomes black.
  ghost function FarNephewUp(c: Ctx): Ctx
    requires !c.Top? && Sibling(c).Node?
  {
    var s := Sibling(c);
    var k := if c.up.Top? then Black else c.color;
    if c.LeftOf? then LeftOf(c.node, Black, s.left, LeftOf(s.node, k, Painted(s.right, Black), c.up))
    else RightOf(s.right, c.node, Black, RightOf(Painted(s.left, Black), s.node, k, c.up))
  }

  lemma RedSiblingRepairs(c: Ctx, h: nat)
    requires Short(c, h) && !c.Top? && IsRed(Sibling(c))
    ensures c.color == Black && Short(RedSiblingUp(c), h)
    ensures !IsRed(Sibling(RedSiblingUp(c)))
  {
    var s := Sibling(c);
    assert Good(s.left) && Good(s.right) && BlackHeight(s.left) == BlackHeight(s.right) == h + 1;
    assert GoodCtx(c.up, h + 2, false);
  }

  lemma NearNephewRepairs(c: Ctx, h: nat)
    requires Short(c, h) && !c.Top? && Sibling(c).Node? && Sibling(c).color == Black
    requires IsRed(Near(c)) && !IsRed(Far(c))
    ensures Short(NearNephewUp(c), h)
    ensures Sibling(NearNephewUp(c)).color == Black && IsRed(Far(NearNephewUp(c)))
  {
    assert Good(Near(c)) && Good(Far(c)) && BlackHeight(Far(c)) == BlackHeight(Near(c)) == h;
    var m, s' := Near(c), Sibling(NearNephewUp(c));
    assert Good(m.left) && Good(m.right) && BlackHeight(m.left) == BlackHeight(m.right) == h;
    assert Good(s'.left) && Good(s'.right) && BlackHeight(s'.left) == BlackHeight(s'.right) == h;
    assert Good(s') && BlackHeight(s') == h + 1;
    assert GoodCtx(c.up, h + 1 + Weight(c.color), c.color == Red);
  }

  lemma FarNephewRepairs(c: Ctx, h: nat)
    requires Short(c, h) && !c.Top? && Sibling(c).Node? && Sibling(c).color == Black && IsRed(Far(c))
    ensures GoodCtx(FarNephewUp(c), h, false)
  {
    assert Good(Near(c)) && Good(Far(c)) && BlackHeight(Far(c)) == BlackHeight(Near(c)) == h;
    assert GoodCtx(c.up, h + 1 + Weight(c.color), c.color == Red);
  }

  lemma BlackNephewsRepair(c: Ctx, h: nat)
    requires Short(c, h) && !c.Top? && Sibling(c).Node? && Sibling(c).color == Black
    requires !IsRed(Near(c)) && !IsRed(Far(c))
    ensures Good(Painted(Sibling(c), Red)) && BlackHeight(Painted(Sibling(c), Red)) == h
    ensures c.color == Black ==> Short(c.up, h + 1)
    ensures c.color == Red ==> GoodCtx(Recolored(c, Black, Red), h, false)
  {
    Relaxed(c.up, h + 1);
  }

  // The nodes of the context stay where they were, left and right of the hole.
  ghost predicate SameSides(c: Ctx, c': Ctx) {
    Before(c') == Before(c) && After(c') == After(c) && CtxNodes(c') == CtxNodes(c) && c'.Top? == c.Top?
  }

  lemma RedSiblingSides(c: Ctx)
    requires !c.Top? && Sibling(c).Node?
    ensures SameSides(c, RedSiblingUp(c))
  {
    var s, p := Sibling(c), [c.node];
    var l, m, r := InOrder(s.left), [s.node], InOrder(s.right);
    if c.LeftOf? {
      assert p + (l + m + r) + After(c.up) == p + l + (m + r + After(c.up));
    } else {
      assert Before(c.up) + (l + m + r) + p == Before(c.up) + l + m + r + p;
    }
  }

  lemma NearNephewSides(c: Ctx)
    requires !c.Top? && Sibling(c).Node? && Near(c).Node?
    ensures SameSides(c, NearNephewUp(c))
  {
    var s, n := Sibling(c), Near(c);
    var s' := Sibling(NearNephewUp(c));
    if c.LeftOf? {
      Regroup3(InOrder(n.left), [n.node], InOrder(n.right), [s.node], InOrder(s.right));
    } else {
      Regroup3(InOrder(s.left), [s.node], InOrder(n.left), [n.node], InOrder(n.right));
    }
    assert InOrder(s') == InOrder(s);
    assert Nodes(s) == {s.node} + Nodes(s.left) + Nodes(s.right) && Nodes(s') == Nodes(s);
  }

  lemma FarNephewSides(c: Ctx)
    requires !c.Top? && Sibling(c).Node?
    ensures SameSides(c, FarNephewUp(c))
  {
    var s, p := Sibling(c), [c.node];
    var l, m, r := InOrder(s.left), [s.node], InOrder(s.right);
    assert InOrder(Painted(s.left, Black)) == l && InOrder(Painted(s.right, Black)) == r;
    assert Nodes(Painted(s.left, Black)) == Nodes(s.left) && Nodes(Painted(s.right, Black)) == Nodes(s.right);
    if c.LeftOf? {
      assert p + (l + m + r) + After(c.up) == p + l + (m + r + After(c.up));
    } else {
      assert Before(c.up) + (l + m + r) + p == Before(c.up) + l + m + r + p;
    }
  }

  // c' mends c: nothing moved across the hole, and a subtree of black height h fits.
  ghost predicate Mended(c: Ctx, c': Ctx, h: nat) {
    true == (SameSides(c, c') && GoodCtx(c', h, false))
  }

  ghost predicate BlackFamily(c: Ctx) {
    !c.Top? && Sibling(c).Node? && Sibling(c).color == Black && !IsRed(Near(c)) && !IsRed(Far(c))
  }

  ghost function PassedUp(c: Ctx, up: Ctx): Ctx
    requires !c.Top?
  {
    if c.LeftOf? then LeftOf(c.node, Black, Painted(c.right, Red), up)
    else RightOf(Painted(c.left, Red), c.node, Black, up)
  }

  lemma RedParentMends(c: Ctx, h: nat)
    requires Short(c, h) && BlackFamily(c) && c.color == Red
    ensures Mended(c, Recolored(c, Black, Red), h)
  {
    BlackNephewsRepair(c, h);
    RecoloredSides(c, Black, Red);
  }

  lemma PassedUpMends(c: Ctx, up: Ctx, h: nat)
    requires Short(c, h) && BlackFamily(c) && c.color == Black && Mended(c.up, up, h + 1)
    ensures Mended(c, PassedUp(c, up), h)
  {
    BlackNephewsRepair(c, h);
    RecoloredSides(c, Black, Red);
    assert GoodCtx(up, h + 1, false);
  }

  lemma FarNephewMends(c: Ctx, h: nat)
    requires Short(c, h) && !c.Top? && Sibling(c).Node? && Sibling(c).color == Black && IsRed(Far(c))
    ensures Mended(c, FarNephewUp(c), h)
  {
    FarNephewRepairs(c, h);
    FarNephewSides(c);
  }

  lemma MendedAfter(c: Ctx, c1: Ctx, c': Ctx, h: nat)
    requires SameSides(c, c1) && Mended(c1, c', h)
    ensures Mended(c, c', h)
  {
  }

  // The two rotations after which the repair starts again at the same node.
  lemma RedSiblingAgain(c: Ctx, h: nat)
    requires Short(c, h) && !c.Top? && IsRed(Sibling(c))
    ensures c.color == Black && Short(RedSiblingUp(c), h) && RedSiblingUp(c).color == Red
    ensures SameSides(c, RedSiblingUp(c))
  {
    RedSiblingRepairs(c, h);
    RedSiblingSides(c);
  }

  lemma NearNephewAgain(c: Ctx, h: nat)
    requires Short(c, h) && !c.Top? && Sibling(c).Node? && Sibling(c).color == Black
    requires IsRed(Near(c)) && !IsRed(Far(c))
    ensures Short(NearNephewUp(c), h) && Climb(NearNephewUp(c)) == Climb(c)
    ensures NephewWork(NearNephewUp(c)) < NephewWork(c)
    ensures SameSides(c, NearNephewUp(c))
  {
    NearNephewRepairs(c, h);
    NearNephewSides(c);
  }

  // ---------- Taking a node out ----------

  lemma LeafOutOf(s: Store, s': Store, c: Ctx, n: RBNode)
    requires LinkedCtx(s, c, n) && !c.Top?
    requires c.node in s && c.node in s' && s'[c.node] == Refilled(s[c.node], c, null)
    requires forall o :: o in CtxNodes(c) && o != c.node ==> o in s && o in s' && s'[o] == s[o]
    ensures Config(s', c, Nil)
  {
    CtxRefilled(s, s', c, n, null);
  }

  lemma LeafInto(s: Store, s': Store, c: Ctx, n: RBNode, u: RBNode)
    requires LinkedCtx(s, c, n) && u !in CtxNodes(c)
    requires u in s' && Fits(s'[u], Holder(c), Side(c), Black, null, null)
    requires !c.Top? ==> c.node in s && c.node in s' && s'[c.node] == Refilled(s[c.node], c, u)
    requires forall o :: o in CtxNodes(c) && o != Holder(c) ==> o in s && o in s' && s'[o] == s[o]
    ensures Config(s', c, Node(Nil, u, Black, Nil))
  {
    CtxRefilled(s, s', c, n, u);
    assert Nodes(Nil) == {} && Nodes(Node(Nil, u, Black, Nil)) == {u};
    assert Linked(s', Nil, u, Pos.Left) && Linked(s', Nil, u, Pos.Right);
    assert Linked(s', Node(Nil, u, Black, Nil), Holder(c), Side(c));
  }

  lemma NoBlackIsEmpty(t: Tree)
    ensures BlackHeight(t) == 0 ==> t.Nil? || IsRed(t)
  {
  }

  // A good tree without a left child is a leaf or a black node with one red leaf.
  lemma LeftmostShapes(t: Tree)
    requires Good(t) && t.Node? && t.left.Nil?
    ensures t.right.Node? ==> t.color == Black && t.right == Leaf(t.right.node)
    ensures BlackHeight(t) == Weight(t.color)
  {
    var r := t.right;
    if r.Node? {
      NoBlackIsEmpty(r);
      NoBlackIsEmpty(r.left);
      NoBlackIsEmpty(r.right);
    }
  }

  // Filling the hole with something that fits gives a red-black tree again.
  lemma WholeAgain(s: Store, c: Ctx, t: Tree)
    requires Config(s, c, t) && s.Keys == CtxNodes(c) + Nodes(t)
    requires Good(t) && GoodCtx(c, BlackHeight(t), IsRed(t))
    ensures RedBlack(s, Plug(c, t)) && Root(Plug(c, t)) == RootAt(c, Root(t))
  {
    ConfigPlug(s, c, t);
    PlugGood(c, t);
    PlugNodes(c, t);
  }

  // ... and so does leaving it empty.
  lemma WholeWithout(s: Store, c: Ctx, n: RBNode)
    requires Config(s, c, Nil) && s.Keys == CtxNodes(c) && GoodCtx(c, 0, false)
    ensures RedBlack(s, Plug(c, Nil)) && InOrder(Plug(c, Nil)) == Before(c) + After(c)
    ensures Root(Plug(c, Nil)) == if c.Top? then null else RootAt(c, n)
  {
    assert Nodes(Nil) == {} && Good(Nil) && BlackHeight(Nil) == 0;
    WholeAgain(s, c, Nil);
    PlugInOrder(c, Nil);
    assert InOrder(Nil) == [] && Before(c) + [] == Before(c);
  }

  // The child u takes the place of a node that is already gone.
  ghost function Spliced(s: Store, c: Ctx, u: RBNode): (r: Store)
    requires u in s && (!c.Top? ==> c.node in s)
    ensures r.Keys == s.Keys
  {
    var s1 := WithColor(s, u, Black);
    if c.Top? then WithParent(s1, u, null)
    else
      var s2 := if c.LeftOf? then WithLeft(s1, c.node, u) else WithRight(s1, c.node, u);
      WithPos(WithParent(s2, u, c.node), u, Side(c))
  }

  lemma SplicedWhole(s: Store, c: Ctx, n: RBNode, u: RBNode)
    requires Config(s, c, Node(Nil, n, Black, Leaf(u))) && s.Keys == CtxNodes(c) + {n, u} && GoodCtx(c, 1, false)
    ensures n in s && u in s && u != n && s[n].right == u && (!c.Top? ==> c.node in s && c.node != u && c.node != n)
    ensures RedBlack(Spliced(s - {n}, c, u), Plug(c, Node(Nil, u, Black, Nil)))
    ensures InOrder(Plug(c, Node(Nil, u, Black, Nil))) == Before(c) + [u] + After(c)
    ensures Root(Plug(c, Node(Nil, u, Black, Nil))) == if c.Top? then u else RootAt(c, n)
  {
    var t, b := Node(Nil, n, Black, Leaf(u)), Node(Nil, u, Black, Nil);
    LinkedCtxNodes(s, c, n);
    assert Nodes(Nil) == {} && Nodes(Leaf(u)) == {u} && Nodes(t) == {n, u};
    assert Linked(s, Leaf(u), n, Pos.Right);
    assert Fits(s[u], n, Pos.Right, Red, null, null);
    var s' := Spliced(s - {n}, c, u);
    LeafInto(s, s', c, n, u);
    assert Nodes(b) == {u} && InOrder(b) == [u] && Good(b);
    WholeAgain(s', c, b);
    PlugInOrder(c, b);
  }

  lemma FirstOut<T>(b: seq<T>, n: T, r: seq<T>, a: seq<T>)
    requires b == []
    ensures b + ([] + [n] + r) + a == [n] + (b + r + a)
  {
  }

  // What is known when the leftmost node has been found.
  lemma EmptyOrNode(t: Tree)
    ensures InOrder(t) == [] <==> t.Nil?
  {
  }

  lemma LeftmostOrder(c: Ctx, t: Tree)
    requires t.Node? && t.left.Nil? && Before(c) == []
    ensures InOrder(Plug(c, t)) == [t.node] + (Before(c) + InOrder(t.right) + After(c))
  {
    PlugInOrder(c, t);
    FirstOut(Before(c), t.node, InOrder(t.right), After(c));
  }

  lemma LeftmostCases(s: Store, c: Ctx, t: Tree)
    requires RedBlack(s, Plug(c, t)) && t.Node? && t.left.Nil?
    ensures t.right.Node? ==> t == Node(Nil, t.node, Black, Leaf(t.right.node)) && GoodCtx(c, 1, false)
    ensures t.right.Nil? ==> t == Node(Nil, t.node, t.color, Nil) && GoodCtx(c, Weight(t.color), t.color == Red)
    ensures s.Keys == CtxNodes(c) + (if t.right.Node? then {t.node, t.right.node} else {t.node})
  {
    PlugGood(c, t);
    PlugNodes(c, t);
    LeftmostShapes(t);
    assert Nodes(Nil) == {} && Nodes(t) == {t.node} + Nodes(t.right);
    if t.right.Node? {
      assert Nodes(t.right) == {t.right.node};
    }
  }

  // ---------- Who holds which block ----------

  lemma ValuesWith<K, V>(m: map<K, V>, k: K, v: V)
    requires k !in m
    ensures m[k := v].Values == m.Values + {v}
  {
    var m' := m[k := v];
    assert m'[k] == v;
    forall x | x in m.Values ensures x in m'.Values {
      var j :| j in m && m[j] == x;
      assert m'[j] == x;
    }
  }

  lemma ValuesWithout<K, V>(m: map<K, V>, k: K)
    requires k in m && forall j :: j in m && j != k ==> m[j] != m[k]
    ensures (m - {k}).Values == m.Values - {m[k]}
  {
    var m' := m - {k};
    forall x | x in m.Values && x != m[k] ensures x in m'.Values {
      var j :| j in m && m[j] == x;
      assert m'[j] == x;
    }
  }
}
