/** The run queue: a red-black tree with parent pointers, keyed by vruntime. */
module RedBlackTree {
  import opened Wrappers
  import opened Entities
  import opened RedBlackModel
  import opened MemoryPool

  // Each live block of the pool holds one of the given nodes, and each node a block.
  ghost predicate Accounted(pool: MemPool, live: set<nat>, owner: map<nat, RBNode>, nodes: set<RBNode>) {
    && owner.Keys == live && owner.Values == nodes
    && forall b :: b in owner ==> pool.IsBlock(owner[b].block) && pool.GetIdxFromPtr(owner[b].block) == b
  }

  lemma AccountedWith(pool: MemPool, live: set<nat>, owner: map<nat, RBNode>, nodes: set<RBNode>, n: RBNode)
    requires Accounted(pool, live, owner, nodes) && pool.IsBlock(n.block)
    requires pool.GetIdxFromPtr(n.block) !in live
    ensures var b := pool.GetIdxFromPtr(n.block); Accounted(pool, live + {b}, owner[b := n], nodes + {n})
  {
    ValuesWith(owner, pool.GetIdxFromPtr(n.block), n);
  }

  lemma AccountedWithout(pool: MemPool, live: set<nat>, owner: map<nat, RBNode>, nodes: set<RBNode>, n: RBNode)
    requires Accounted(pool, live, owner, nodes) && n in nodes
    ensures pool.IsBlock(n.block) && pool.GetIdxFromPtr(n.block) in live
    ensures var b := pool.GetIdxFromPtr(n.block); Accounted(pool, live - {b}, owner - {b}, nodes - {n})
  {
    var b :| b in owner && owner[b] == n;
    ValuesWithout(owner, b);
  }

  // As a new node is constructed.
  ghost predicate Unlinked(n: RBNode)
    reads n
  {
    (n.parent, n.left, n.right, n.m_color) == (null, null, null, Red)
  }

  class RBTree {
    var m_root: RBNode?
    // A copy of the fields of every node of the tree.
    ghost var store: Store

    ghost predicate Mirrors()
      reads this`store, store.Keys
    {
      forall n :: n in store ==> store[n] == Rec(n.parent, n.left, n.right, n.m_color, n.m_pos)
    }

    // ---------- Field updates ----------

    method SetParent(n: RBNode, p: RBNode?)
      requires Mirrors() && n in store
      modifies n`parent, this`store
      ensures Mirrors() && store == WithParent(old(store), n, p)
    {
      n.parent := p;
      store := WithParent(store, n, p);
    }

    method SetLeft(n: RBNode, p: RBNode?)
      requires Mirrors() && n in store
      modifies n`left, this`store
      ensures Mirrors() && store == WithLeft(old(store), n, p)
    {
      n.left := p;
      store := WithLeft(store, n, p);
    }

    method SetRight(n: RBNode, p: RBNode?)
      requires Mirrors() && n in store
      modifies n`right, this`store
      ensures Mirrors() && store == WithRight(old(store), n, p)
    {
      n.right := p;
      store := WithRight(store, n, p);
    }

    method SetPos(n: RBNode, p: Pos)
      requires Mirrors() && n in store
      modifies n`m_pos, this`store
      ensures Mirrors() && store == WithPos(old(store), n, p)
    {
      n.m_pos := p;
      store := WithPos(store, n, p);
    }

    method SetColor(n: RBNode, k: Color)
      requires Mirrors() && n in store
      modifies n`m_color, this`store
      ensures Mirrors() && store == WithColor(old(store), n, k)
    {
      n.m_color := k;
      store := WithColor(store, n, k);
    }

    // ---------- Rotations ----------

    method HangRight(node: RBNode, child: RBNode?)
      requires Mirrors() && node in store && (child != null ==> child in store)
      modifies node`right, this`store
      modifies (if child == null then {} else {child})`parent, (if child == null then {} else {child})`m_pos
      ensures Mirrors() && store == HungRight(old(store), node, child) && m_root == old(m_root)
    {
      SetRight(node, child);
      if node.right != null {
        SetParent(node.right, node);
        SetPos(node.right, Pos.Right);
      }
    }

    method HangLeft(node: RBNode, child: RBNode?)
      requires Mirrors() && node in store && (child != null ==> child in store)
      modifies node`left, this`store
      modifies (if child == null then {} else {child})`parent, (if child == null then {} else {child})`m_pos
      ensures Mirrors() && store == HungLeft(old(store), node, child) && m_root == old(m_root)
    {
      SetLeft(node, child);
      if node.left != null {
        SetParent(node.left, node);
        SetPos(node.left, Pos.Left);
      }
    }

    // temp takes node's place below node's parent, or becomes the root.
    method MoveUp(temp: RBNode, node: RBNode, ghost c: Ctx)
      requires Mirrors() && node in store && temp in store
      requires store[node].parent == Holder(c)
      requires (!c.Top? ==> store[node].pos == Side(c) && c.node in store && c.node != temp)
      modifies this`m_root, this`store, store.Keys
      ensures Mirrors() && store == MovedUp(old(store), temp, c)
      ensures m_root == if c.Top? then temp else old(m_root)
    {
      if node.parent == null {
        SetParent(temp, null);
        SetColor(temp, Black);
        m_root := temp;
      } else {
        SetParent(temp, node.parent);
        if node.m_pos == Pos.Left {
          SetPos(temp, Pos.Left);
          SetLeft(temp.parent, temp);
        } else {
          SetPos(temp, Pos.Right);
          SetRight(temp.parent, temp);
        }
      }
    }

    method LeftRotate(node: RBNode, ghost c: Ctx, ghost t: Tree)
      requires Mirrors() && Config(store, c, t) && m_root == RootAt(c, node)
      requires t.Node? && t.node == node && t.right.Node?
      modifies this`m_root, this`store, store.Keys
      ensures Mirrors() && store.Keys == old(store.Keys)
      ensures Config(store, c, RotatedLeft(c, t)) && m_root == RootAt(c, t.right.node)
    {
      LeftTurnConfig(store, c, t);
      var temp := node.right;
      HangRight(node, temp.left);
      MoveUp(temp, node, c);
      HangLeft(temp, node);
    }

    method RightRotate(node: RBNode, ghost c: Ctx, ghost t: Tree)
      requires Mirrors() && Config(store, c, t) && m_root == RootAt(c, node)
      requires t.Node? && t.node == node && t.left.Node?
      modifies this`m_root, this`store, store.Keys
      ensures Mirrors() && store.Keys == old(store.Keys)
      ensures Config(store, c, RotatedRight(c, t)) && m_root == RootAt(c, t.left.node)
    {
      RightTurnConfig(store, c, t);
      var temp := node.left;
      HangLeft(node, temp.right);
      MoveUp(temp, node, c);
      HangRight(temp, node);
    }

    // node is the parent of the one that ends up on top: t is seen from node's context.
    method LeftRightRotate(node: RBNode, ghost c: Ctx, ghost t: Tree)
      requires Mirrors() && Config(store, c, t) && m_root == RootAt(c, node)
      requires t.Node? && t.node == node && t.left.Node? && t.left.right.Node?
      modifies this`m_root, this`store, store.Keys
      ensures Mirrors() && store.Keys == old(store.Keys)
      ensures Config(store, c, RotatedRight(c, t.(left := RotatedLeft(LeftOf(node, t.color, t.right, c), t.left))))
      ensures m_root == RootAt(c, t.left.right.node)
    {
      ghost var c1 := LeftOf(node, t.color, t.right, c);
      ConfigDown(store, c, t);
      Around(store, c, t);
      LeftRotate(node.left, c1, t.left);
      ConfigUp(store, c1, RotatedLeft(c1, t.left));
      RightRotate(node, c, t.(left := RotatedLeft(c1, t.left)));
    }

    method RightLeftRotate(node: RBNode, ghost c: Ctx, ghost t: Tree)
      requires Mirrors() && Config(store, c, t) && m_root == RootAt(c, node)
      requires t.Node? && t.node == node && t.right.Node? && t.right.left.Node?
      modifies this`m_root, this`store, store.Keys
      ensures Mirrors() && store.Keys == old(store.Keys)
      ensures Config(store, c, RotatedLeft(c, t.(right := RotatedRight(RightOf(t.left, node, t.color, c), t.right))))
      ensures m_root == RootAt(c, t.right.left.node)
    {
      ghost var c1 := RightOf(t.left, node, t.color, c);
      ConfigDown(store, c, t);
      Around(store, c, t);
      RightRotate(node.right, c1, t.right);
      ConfigUp(store, c1, RotatedRight(c1, t.right));
      LeftRotate(node, c, t.(right := RotatedRight(c1, t.right)));
    }

    // Colour a node in its place in the tree.
    method Paint(n: RBNode, k: Color, ghost c: Ctx, ghost t: Tree)
      requires Mirrors() && Config(store, c, t) && t.Node? && t.node == n && n in store
      modifies n`m_color, this`store
      ensures Mirrors() && store.Keys == old(store.Keys) && m_root == old(m_root)
      ensures Config(store, c, Painted(t, k))
    {
      PaintedConfig(store, c, t, k);
      SetColor(n, k);
    }

    // Colour a node with a child on either side: the shape both inserting rotations end in.
    method PaintThree(m: RBNode, k: Color, l: RBNode, kl: Color, r: RBNode, kr: Color, ghost c: Ctx, ghost t: Tree)
      requires Mirrors() && Config(store, c, t)
      requires t.Node? && t.left.Node? && t.right.Node?
      requires t.node == m && t.left.node == l && t.right.node == r
      modifies this`store, store.Keys
      ensures Mirrors() && store.Keys == old(store.Keys) && m_root == old(m_root)
      ensures Config(store, c, Node(Painted(t.left, kl), m, k, Painted(t.right, kr)))
    {
      ghost var t1 := Painted(t, k);
      Around(store, c, t);
      Paint(m, k, c, t);
      ghost var cl := LeftOf(m, k, t1.right, c);
      ConfigDown(store, c, t1);
      Around(store, cl, t1.left);
      Paint(l, kl, cl, t1.left);
      ConfigUp(store, cl, Painted(t1.left, kl));
      ghost var t2 := Node(Painted(t1.left, kl), m, k, t1.right);
      ghost var cr := RightOf(t2.left, m, k, c);
      ConfigDown(store, c, t2);
      Around(store, cr, t2.right);
      Paint(r, kr, cr, t2.right);
      ConfigUp(store, cr, Painted(t2.right, kr));
    }

    // ---------- Insertion ----------

    // Rotate at the grandparent; the side of node and of its parent choose the rotation.
    method Rotate(node: RBNode, ghost c: Ctx, ghost t: Tree)
      requires Mirrors() && Config(store, c, t) && m_root == RootAt(c, node)
      requires t.Node? && t.node == node && !c.Top? && !c.up.Top?
      modifies this`m_root, this`store, store.Keys
      ensures Mirrors() && store.Keys == old(store.Keys)
      ensures Config(store, RotatedUp(c, t).0, RotatedUp(c, t).1) && m_root == RootAt(RotatedUp(c, t).0, node)
    {
      ghost var up := c.up.up;
      ghost var t1 := Joined(c, t);
      ghost var t2 := Joined(c.up, t1);
      Around(store, c, t);
      ConfigUp(store, c, t);
      Around(store, c.up, t1);
      ConfigUp(store, c.up, t1);
      var grand := node.parent.parent;
      if node.m_pos == Pos.Right && node.parent.m_pos == Pos.Right {
        LeftRotate(grand, up, t2);
        AroundChildren(store, up, RotatedLeft(up, t2));
        PaintThree(node.parent, Black, node.parent.left, Red, node, Red, up, RotatedLeft(up, t2));
        ConfigDown(store, up, Node(Painted(RotatedLeft(up, t2).left, Red), c.node, Black, Painted(t, Red)));
      } else if node.m_pos == Pos.Left && node.parent.m_pos == Pos.Left {
        RightRotate(grand, up, t2);
        AroundChildren(store, up, RotatedRight(up, t2));
        PaintThree(node.parent, Black, node, Red, node.parent.right, Red, up, RotatedRight(up, t2));
        ConfigDown(store, up, Node(Painted(t, Red), c.node, Black, Painted(RotatedRight(up, t2).right, Red)));
      } else if node.m_pos == Pos.Right {
        LeftRightRotate(grand, up, t2);
        ghost var t3 := RotatedRight(up, t2.(left := RotatedLeft(c.up, t1)));
        Around(store, up, t3);
        PaintThree(node, Black, node.left, Red, node.right, Red, up, t3);
      } else {
        RightLeftRotate(grand, up, t2);
        ghost var t3 := RotatedLeft(up, t2.(right := RotatedRight(c.up, t1)));
        Around(store, up, t3);
        PaintThree(node, Black, node.left, Red, node.right, Red, up, t3);
      }
    }

    // Parent and aunt become black, the grandparent red.
    method FlipColors(grand: RBNode, ghost c: Ctx, ghost t: Tree)
      requires Mirrors() && !c.Top? && !c.up.Top? && t.Node? && grand == c.up.node
      requires Config(store, c.up.up, Joined(c.up, Joined(c, t))) && Sibling(c.up).Node?
      modifies this`store, store.Keys
      ensures Mirrors() && store.Keys == old(store.Keys) && m_root == old(m_root)
      ensures Config(store, Flipped(c), t)
    {
      ghost var up, t2 := c.up.up, Joined(c.up, Joined(c, t));
      AroundChildren(store, up, t2);
      PaintThree(grand, Red, grand.left, Black, grand.right, Black, up, t2);
      ghost var t3 := Node(Painted(t2.left, Black), grand, Red, Painted(t2.right, Black));
      ConfigDown(store, up, t3);
      ConfigDown(store, Flipped(c).up, if c.up.LeftOf? then t3.left else t3.right);
    }

    // A red node below a red parent: rotate if the aunt is black, else flip colours.
    method CorrectTree(node: RBNode, ghost c: Ctx, ghost t: Tree)
      requires Mirrors() && Config(store, c, t) && m_root == RootAt(c, node)
      requires t.Node? && t.node == node && !c.Top? && !c.up.Top?
      modifies this`m_root, this`store, store.Keys
      ensures Mirrors() && store.Keys == old(store.Keys)
      ensures Config(store, Corrected(c, t).0, Corrected(c, t).1) && m_root == RootAt(Corrected(c, t).0, node)
    {
      ghost var t1 := Joined(c, t);
      Around(store, c, t);
      ConfigUp(store, c, t);
      Around(store, c.up, t1);
      ConfigUp(store, c.up, t1);
      var grand := node.parent.parent;
      var aunt := if node.parent.m_pos == Pos.Left then grand.right else grand.left;
      if aunt == null || aunt.m_color == Black {
        assert Corrected(c, t) == RotatedUp(c, t);
        Rotate(node, c, t);
      } else {
        assert Corrected(c, t) == (Flipped(c), t);
        FlipColors(grand, c, t);
        assert RootAt(Flipped(c), node) == RootAt(Flipped(c).up, c.node) == RootAt(c.up.up, grand);
      }
    }

    // Walks from node to the root, correcting on the way.
    method CheckColor(node: RBNode, ghost c: Ctx, ghost t: Tree) returns (ghost t': Tree)
      requires Mirrors() && Config(store, c, t) && m_root == RootAt(c, node)
      requires t.Node? && t.node == node && Repairable(c, t) && store.Keys == Nodes(Plug(c, t))
      modifies this`m_root, this`store, store.Keys
      ensures Mirrors() && store.Keys == old(store.Keys)
      ensures RedBlack(store, t') && m_root == Root(t') && InOrder(t') == InOrder(Plug(c, t))
      decreases Depth(c)
    {
      Around(store, c, t);
      if !c.Top? { RootAtInside(c, node); }
      if node == m_root {
        Paint(node, Black, c, t);
        return Painted(t, Black);
      }
      ghost var c1, t1 := c, t;
      if node.m_color == Red && node.parent.m_color == Red {
        CorrectedRepairs(c, t);
        CorrectedKeeps(c, t);
        c1, t1 := Corrected(c, t).0, Corrected(c, t).1;
        CorrectTree(node, c, t);
        Around(store, c1, t1);
        if !c1.Top? { RootAtInside(c1, node); }
      } else {
        RepairableUp(c, t);
      }
      if node == m_root {
        return t1;
      }
      ConfigUp(store, c1, t1);
      t' := CheckColor(node.parent, c1.up, Joined(c1, t1));
    }

    // A new node learns its parent and joins the nodes of the tree.
    method Enlist(n: RBNode, p: RBNode, pos: Pos)
      requires Mirrors() && n !in store && n.left == null && n.right == null && n.m_color == Red
      modifies this`store, n`parent, n`m_pos
      ensures Mirrors() && store == old(store)[n := Rec(p, null, null, Red, pos)] && m_root == old(m_root)
    {
      n.parent := p;
      n.m_pos := pos;
      store := store[n := Rec(p, null, null, Red, pos)];
    }

    method AttachLeft(parent: RBNode, new_node: RBNode, ghost c: Ctx, ghost t: Tree)
      requires Mirrors() && Config(store, c, t) && t.Node? && t.node == parent && new_node !in store && t.left.Nil?
      requires new_node.left == null && new_node.right == null && new_node.m_color == Red
      modifies this`store, parent, new_node
      ensures Mirrors() && store.Keys == old(store.Keys) + {new_node} && m_root == old(m_root)
      ensures Config(store, LeftOf(parent, t.color, t.right, c), Leaf(new_node))
    {
      LeafHungLeft(store, c, t, new_node);
      Enlist(new_node, parent, Pos.Left);
      SetLeft(parent, new_node);
    }

    method AttachRight(parent: RBNode, new_node: RBNode, ghost c: Ctx, ghost t: Tree)
      requires Mirrors() && Config(store, c, t) && t.Node? && t.node == parent && new_node !in store && t.right.Nil?
      requires new_node.left == null && new_node.right == null && new_node.m_color == Red
      modifies this`store, parent, new_node
      ensures Mirrors() && store.Keys == old(store.Keys) + {new_node} && m_root == old(m_root)
      ensures Config(store, RightOf(t.left, parent, t.color, c), Leaf(new_node))
    {
      LeafHungRight(store, c, t, new_node);
      Enlist(new_node, parent, Pos.Right);
      SetRight(parent, new_node);
    }

    /** The recursive descent. The new node ends up in front of the first node whose key is
        not smaller; a red parent is repaired by the caller, one level up. */
    method AddBelow(parent: RBNode, new_node: RBNode, ghost c: Ctx, ghost t: Tree)
      returns (ghost c': Ctx, ghost t': Tree)
      requires Mirrors() && m_root == RootAt(c, parent) && t.Node? && t.node == parent
      requires Insertable(store, c, t, new_node)
      requires new_node.left == null && new_node.right == null && new_node.m_color == Red
      modifies this`m_root, this`store, store.Keys, new_node
      ensures Mirrors() && m_root == RootAt(c', new_node) && store.Keys == old(store.Keys) + {new_node}
      ensures Placed(store, c', t', new_node, Plug(c, t))
      ensures t.color == Black ==> GoodCtx(c', BlackHeight(t'), IsRed(t'))
      decreases t
    {
      Around(store, c, t);
      InsertableBelow(store, c, t, new_node);
      if new_node.m_key > parent.m_key {
        c' := RightOf(t.left, parent, t.color, c);
        if parent.right == null {
          t' := Leaf(new_node);
          AttachRight(parent, new_node, c, t);
          LeafPlaced(old(store), store, c', new_node);
          return;
        }
        c', t' := AddBelow(parent.right, new_node, c', t.right);
      } else {
        c' := LeftOf(parent, t.color, t.right, c);
        if parent.left == null {
          t' := Leaf(new_node);
          AttachLeft(parent, new_node, c, t);
          LeafPlaced(old(store), store, c', new_node);
          return;
        }
        c', t' := AddBelow(parent.left, new_node, c', t.left);
      }
      ghost var whole := CheckColor(new_node, c', t');
      c', t' := RepairedPlaced(store, whole, new_node, Plug(c, t));
    }

    // ---------- Removal ----------

    method PaintParentSibling(p: RBNode, kp: Color, s: RBNode, ks: Color, ghost c: Ctx, ghost t: Tree)
      requires Mirrors() && Config(store, c, t) && !c.Top? && Sibling(c).Node?
      requires p == c.node && s == Sibling(c).node
      modifies this`store, store.Keys
      ensures Mirrors() && store.Keys == old(store.Keys) && m_root == old(m_root)
      ensures Config(store, Recolored(c, kp, ks), t)
    {
      ghost var up := c.up;
      ghost var cs := if c.LeftOf? then RightOf(t, p, c.color, up) else LeftOf(p, c.color, t, up);
      Around(store, c, t);
      ConfigUp(store, c, t);
      ConfigDown(store, up, Joined(c, t));
      Paint(s, ks, cs, Sibling(c));
      ConfigUp(store, cs, Painted(Sibling(c), ks));
      ghost var t1 := Joined(cs, Painted(Sibling(c), ks));
      Paint(p, kp, up, t1);
      ConfigDown(store, up, Painted(t1, kp));
    }

    // node's parent goes down below node's sibling, on node's side.
    method RotateParent(node: RBNode, ghost c: Ctx, ghost t: Tree)
      requires Mirrors() && Config(store, c, t) && m_root == RootAt(c, node)
      requires t.Node? && t.node == node && !c.Top? && Sibling(c).Node?
      modifies this`m_root, this`store, store.Keys
      ensures Mirrors() && store.Keys == old(store.Keys)
      ensures Config(store, ParentRotated(c), t) && m_root == RootAt(ParentRotated(c), node)
    {
      ghost var tp := Joined(c, t);
      Around(store, c, t);
      ConfigUp(store, c, t);
      if node.m_pos == Pos.Left {
        LeftRotate(node.parent, c.up, tp);
        ghost var r := RotatedLeft(c.up, tp);
        ConfigDown(store, c.up, r);
        ConfigDown(store, LeftOf(r.node, r.color, r.right, c.up), r.left);
      } else {
        RightRotate(node.parent, c.up, tp);
        ghost var r := RotatedRight(c.up, tp);
        ConfigDown(store, c.up, r);
        ConfigDown(store, RightOf(r.left, r.node, r.color, c.up), r.right);
      }
    }

    // The near nephew takes the sibling's place.
    method RotateSibling(node: RBNode, s: RBNode, ghost c: Ctx, ghost t: Tree)
      requires Mirrors() && Config(store, c, t) && m_root == RootAt(c, node)
      requires t.Node? && t.node == node && !c.Top? && Sibling(c).Node? && s == Sibling(c).node
      requires Near(c).Node? && s.m_color == Black
      modifies this`m_root, this`store, store.Keys
      ensures Mirrors() && store.Keys == old(store.Keys)
      ensures Config(store, NearNephewUp(c), t) && m_root == RootAt(NearNephewUp(c), node)
    {
      ghost var up, b, k := c.up, Sibling(c), c.color;
      Around(store, c, t);
      ConfigUp(store, c, t);
      ConfigDown(store, up, Joined(c, t));
      if s.m_pos == Pos.Left {
        ghost var cs := LeftOf(c.node, k, t, up);
        ConfigDown(store, cs, b);
        AroundChildren(store, cs, b);
        PaintParentSibling(s, Red, s.right, s.m_color, LeftOf(s, Black, b.right, cs), b.left);
        ghost var b1 := Node(b.left, s, Red, Painted(b.right, Black));
        ConfigUp(store, LeftOf(s, Red, b1.right, cs), b1.left);
        LeftRotate(s, cs, b1);
        ConfigUp(store, cs, RotatedLeft(cs, b1));
      } else {
        ghost var cs := RightOf(t, c.node, k, up);
        ConfigDown(store, cs, b);
        AroundChildren(store, cs, b);
        PaintParentSibling(s, Red, s.left, s.m_color, RightOf(b.left, s, Black, cs), b.right);
        ghost var b1 := Node(Painted(b.left, Black), s, Red, b.right);
        ConfigUp(store, RightOf(b1.left, s, Red, cs), b1.right);
        RightRotate(s, cs, b1);
        ConfigUp(store, cs, RotatedRight(cs, b1));
      }
      ConfigDown(store, up, Joined(NearNephewUp(c), t));
    }

    // The sibling is black and the far nephew red: one rotation at the parent ends the repair.
    method RaiseFarNephew(node: RBNode, s: RBNode, far: RBNode, ghost c: Ctx, ghost t: Tree)
      requires Mirrors() && Config(store, c, t) && m_root == RootAt(c, node)
      requires t.Node? && t.node == node && t.color == Black
      requires !c.Top? && Sibling(c).Node? && s == Sibling(c).node && Far(c).Node? && far == Far(c).node
      modifies this`m_root, this`store, store.Keys
      ensures Mirrors() && store.Keys == old(store.Keys)
      ensures Config(store, FarNephewUp(c), t) && m_root == RootAt(FarNephewUp(c), node)
    {
      Around(store, c, t);
      PaintParentSibling(node.parent, Black, s, node.parent.m_color, c, t);
      ghost var c1 := Recolored(c, Black, c.color);
      RotateParent(node, c1, t);
      ghost var c2 := ParentRotated(c1);
      Around(store, c2, t);
      Paint(node, Black, c2, t);
      assert Painted(t, Black) == t;
      ConfigUp(store, c2, t);
      ghost var tp := Joined(c2, t);
      Around(store, c2.up, tp);
      ConfigUp(store, c2.up, tp);
      ConfigDown(store, c.up, Joined(c2.up, tp));
      ghost var cf := if c.LeftOf? then RightOf(tp, s, c2.up.color, c.up) else LeftOf(s, c2.up.color, tp, c.up);
      Paint(far, Black, cf, Far(c));
      ConfigUp(store, cf, Painted(Far(c), Black));
      ConfigDown(store, c.up, Joined(cf, Painted(Far(c), Black)));
      ConfigDown(store, FarNephewUp(c).up, tp);
    }

    /** One black node is missing on the paths through node, whose own subtree stays as it is:
        repair the rest of the tree, possibly passing the defect on to the parent. */
    method FixDB(node: RBNode, ghost c: Ctx, ghost t: Tree, ghost h: nat) returns (ghost c': Ctx)
      requires Mirrors() && Config(store, c, t) && m_root == RootAt(c, node)
      requires t.Node? && t.node == node && t.color == Black && Short(c, h)
      modifies this`m_root, this`store, store.Keys
      ensures Mirrors() && store.Keys == old(store.Keys)
      ensures Config(store, c', t) && m_root == RootAt(c', node)
      ensures Mended(c, c', h)
      decreases Climb(c), NephewWork(c)
    {
      Around(store, c, t);
      if !c.Top? { RootAtInside(c, node); }
      if node == m_root {
        assert Mended(c, c, h);
        return c;
      }
      ShortHasSibling(c, h);
      AroundSibling(store, c, t);
      var s := if node.m_pos == Pos.Left then node.parent.right else node.parent.left;
      var leftRed := s.left != null && s.left.m_color == Red;
      var rightRed := s.right != null && s.right.m_color == Red;
      if s.m_color == Black && (leftRed || rightRed) {
        var farRed := if s.m_pos == Pos.Left then leftRed else rightRed;
        if !farRed {
          c' := MendNearNephew(node, s, c, t, h);
        } else {
          FarNephewMends(c, h);
          RaiseFarNephew(node, s, if s.m_pos == Pos.Left then s.left else s.right, c, t);
          c' := FarNephewUp(c);
        }
      } else if s.m_color == Black {
        assert BlackFamily(c);
        c' := MendBlackNephews(node, s, c, t, h);
      } else {
        c' := MendRedSibling(node, s, c, t, h);
      }
    }

    // The near nephew comes up in the sibling's place, and the repair starts again.
    method MendNearNephew(node: RBNode, s: RBNode, ghost c: Ctx, ghost t: Tree, ghost h: nat) returns (ghost c': Ctx)
      requires Mirrors() && Config(store, c, t) && m_root == RootAt(c, node)
      requires t.Node? && t.node == node && t.color == Black && Short(c, h)
      requires !c.Top? && Sibling(c).Node? && s == Sibling(c).node && s.m_color == Black && Sibling(c).color == Black
      requires IsRed(Near(c)) && !IsRed(Far(c))
      modifies this`m_root, this`store, store.Keys
      ensures Mirrors() && store.Keys == old(store.Keys)
      ensures Config(store, c', t) && m_root == RootAt(c', node) && Mended(c, c', h)
      decreases Climb(c), NephewWork(c), 0
    {
      hide Short, Climb, NephewWork, SameSides, Mended;
      NearNephewAgain(c, h);
      RotateSibling(node, s, c, t);
      c' := FixDB(node, NearNephewUp(c), t, h);
      MendedAfter(c, NearNephewUp(c), c', h);
    }

    // The sibling becomes red; the defect ends at a red parent or moves on to a black one.
    method MendBlackNephews(node: RBNode, s: RBNode, ghost c: Ctx, ghost t: Tree, ghost h: nat) returns (ghost c': Ctx)
      requires Mirrors() && Config(store, c, t) && m_root == RootAt(c, node)
      requires t.Node? && t.node == node && t.color == Black && Short(c, h)
      requires BlackFamily(c) && s == Sibling(c).node
      modifies this`m_root, this`store, store.Keys
      ensures Mirrors() && store.Keys == old(store.Keys)
      ensures Config(store, c', t) && m_root == RootAt(c', node) && Mended(c, c', h)
      decreases Climb(c), NephewWork(c), 0
    {
      hide Short, Mended;
      Around(store, c, t);
      RootAtInside(c, node);
      var parentBlack := node.parent.m_color == Black;
      PaintParentSibling(node.parent, Black, s, Red, c, t);
      c' := Recolored(c, Black, Red);
      if parentBlack {
        BlackNephewsRepair(c, h);
        c' := PassUp(node, c, t, h);
      } else {
        RedParentMends(c, h);
      }
    }

    // The sibling comes up in the parent's place, and the repair starts again below a red parent.
    method MendRedSibling(node: RBNode, s: RBNode, ghost c: Ctx, ghost t: Tree, ghost h: nat) returns (ghost c': Ctx)
      requires Mirrors() && Config(store, c, t) && m_root == RootAt(c, node)
      requires t.Node? && t.node == node && t.color == Black && Short(c, h)
      requires !c.Top? && IsRed(Sibling(c)) && s == Sibling(c).node
      modifies this`m_root, this`store, store.Keys
      ensures Mirrors() && store.Keys == old(store.Keys)
      ensures Config(store, c', t) && m_root == RootAt(c', node) && Mended(c, c', h)
      decreases Climb(c), NephewWork(c), 0
    {
      hide Short, SameSides, Mended;
      RedSiblingAgain(c, h);
      Around(store, c, t);
      PaintParentSibling(node.parent, Red, s, node.parent.m_color, c, t);
      RotateParent(node, Recolored(c, Red, Black), t);
      c' := FixDB(node, RedSiblingUp(c), t, h);
      MendedAfter(c, RedSiblingUp(c), c', h);
    }

    // The defect moves to the parent, the sibling having become red.
    method PassUp(node: RBNode, ghost c: Ctx, ghost t: Tree, ghost h: nat) returns (ghost c': Ctx)
      requires Mirrors() && t.Node? && t.node == node
      requires Short(c, h) && BlackFamily(c) && c.color == Black
      requires Config(store, Recolored(c, Black, Red), t) && m_root == RootAt(c.up, c.node)
      modifies this`m_root, this`store, store.Keys
      ensures Mirrors() && store.Keys == old(store.Keys)
      ensures Config(store, c', t) && m_root == RootAt(c', node) && Mended(c, c', h)
      decreases Depth(c.up), 3
    {
      ghost var c1 := Recolored(c, Black, Red);
      ghost var tp := Joined(c1, t);
      BlackNephewsRepair(c, h);
      Around(store, c1, t);
      ConfigUp(store, c1, t);
      ghost var up := FixDB(node.parent, c.up, tp, h + 1);
      ConfigDown(store, up, tp);
      c' := PassedUp(c, up);
      PassedUpMends(c, up, h);
    }

    // ---------- The queue ----------

    var m_size: nat
    var high_mark: nat
    const m_mpool: MemPool
    ghost var tree: Tree
    // Every node that has a block: those in the tree, and those taken out but not yet deleted.
    ghost var held: set<RBNode>
    // The node in each live block of the pool.
    ghost var owner: map<nat, RBNode>

    ghost predicate LinksValid()
      reads this`store, this`tree, this`m_root, store.Keys
    {
      true == (Mirrors() && RedBlack(store, tree) && m_root == Root(tree))
    }

    ghost predicate TreeValid()
      reads this`store, this`tree, this`m_root, this`m_size, this`high_mark, store.Keys
    {
      true == (LinksValid() && Sorted(InOrder(tree)) && m_size == |InOrder(tree)| <= high_mark)
    }

    // The pool's live blocks are exactly those of the held nodes.
    ghost predicate PoolValid()
      reads this`owner, this`held, m_mpool, m_mpool.link
    {
      true == (m_mpool.Valid() && Accounted(m_mpool, m_mpool.live, owner, held)
        && m_mpool.m_num_blocks_allocd == |held|)
    }

    ghost predicate Valid()
      reads this, store.Keys, m_mpool, m_mpool.link
    {
      TreeValid() && PoolValid() && store.Keys <= held
    }

    // The nodes in queue order.
    ghost function Queue(): seq<RBNode>
      reads this`tree
    {
      InOrder(tree)
    }

    constructor (mem: nat, size: nat)
      requires HEADER_SIZE + INIT_STEP * BLOCK_SIZE <= size
      ensures Valid() && Queue() == [] && held == {}
      ensures fresh(m_mpool) && fresh(m_mpool.link)
      ensures m_mpool.m_num_blocks_total == (size - HEADER_SIZE) / BLOCK_SIZE
    {
      m_mpool := new MemPool(mem, size);
      m_root, m_size, high_mark := null, 0, 0;
      store, tree, held, owner := map[], Nil, {}, map[];
    }

    // As many live blocks as queued nodes, when nothing is detached.
    lemma OneBlockEach()
      requires Valid() && held == store.Keys
      ensures m_mpool.m_num_blocks_allocd == |Queue()|
    {
      CountNodes(store, tree, null, Pos.Left);
    }

    method AllocNode(key: nat, val: SchedEntity, id: nat) returns (node: RBNode)
      requires PoolValid() && m_mpool.m_num_blocks_allocd < m_mpool.m_num_blocks_total
      modifies m_mpool, m_mpool.link, this`held, this`owner
      ensures PoolValid() && fresh(node) && held == old(held) + {node}
      ensures (node.m_key, node.m_val, node.se_id) == (key, val, id) && Unlinked(node)
      ensures m_mpool.m_num_blocks_allocd == old(m_mpool.m_num_blocks_allocd) + 1
    {
      hide Accounted;
      var node_mem := m_mpool.AllocBlock();
      m_mpool.ClientWrite(node_mem.value, key % 0x1_0000_0000);
      node := new RBNode(key, val, id, node_mem.value);
      AccountedWith(m_mpool, old(m_mpool.live), owner, held, node);
      owner := owner[m_mpool.GetIdxFromPtr(node.block) := node];
      held := held + {node};
    }

    method DeleteNode(node: RBNode)
      requires PoolValid() && node in held
      modifies m_mpool, m_mpool.link, this`held, this`owner
      ensures PoolValid() && held == old(held) - {node}
      ensures m_mpool.m_num_blocks_allocd == old(m_mpool.m_num_blocks_allocd) - 1
    {
      AccountedWithout(m_mpool, m_mpool.live, owner, held, node);
      m_mpool.FreeBlock(node.block);
      owner := owner - {m_mpool.GetIdxFromPtr(node.block)};
      held := held - {node};
    }

    method Add(key: nat, val: SchedEntity, id: nat) returns (ghost node: RBNode)
      requires Valid() && m_mpool.m_num_blocks_allocd < m_mpool.m_num_blocks_total
      modifies this, store.Keys, m_mpool, m_mpool.link
      ensures Valid() && Queue() == Insert(old(Queue()), node)
      ensures fresh(node) && (node.m_key, node.m_val, node.se_id) == (key, val, id)
      ensures held == old(held) + {node} && store.Keys == old(store.Keys) + {node}
      ensures m_mpool.m_num_blocks_allocd == old(m_mpool.m_num_blocks_allocd) + 1
    {
      hide TreeValid, PoolValid;
      var new_node := AllocNode(key, val, id);
      node := new_node;
      AddHeld(new_node);
    }

    // The node is in its block already; only the tree changes.
    method AddHeld(node: RBNode)
      requires Valid() && node in held && node !in store && Unlinked(node)
      modifies this`m_root, this`store, this`tree, this`m_size, this`high_mark, store.Keys, node
      ensures Valid() && Queue() == Insert(old(Queue()), node) && held == old(held)
      ensures store.Keys == old(store.Keys) + {node}
      ensures m_mpool.m_num_blocks_allocd == old(m_mpool.m_num_blocks_allocd)
    {
      AddNode(node);
    }

    method AddNode(node: RBNode)
      requires TreeValid() && node !in store
      requires Unlinked(node)
      modifies this`m_root, this`store, this`tree, this`m_size, this`high_mark, store.Keys, node
      ensures TreeValid() && Queue() == Insert(old(Queue()), node)
      ensures store.Keys == old(store.Keys) + {node}
    {
      InsertSorted(InOrder(tree), node);
      InsertNode(node);
      CountUp();
    }

    method CountUp()
      modifies this`m_size, this`high_mark
      ensures m_size == old(m_size) + 1
      ensures high_mark == if old(high_mark) < m_size then m_size else old(high_mark)
    {
      m_size := m_size + 1;
      if m_size > high_mark {
        high_mark := m_size;
      }
    }

    method InsertNode(node: RBNode)
      requires LinksValid() && Sorted(InOrder(tree)) && node !in store
      requires Unlinked(node)
      modifies this`m_root, this`store, this`tree, store.Keys, node
      ensures LinksValid() && InOrder(tree) == Insert(old(InOrder(tree)), node)
      ensures store.Keys == old(store.Keys) + {node}
    {
      if m_root == null {
        PlantRoot(node);
      } else {
        InsertableStart(store, tree, node);
        ghost var keys := store.Keys;
        ghost var c, t := AddBelow(m_root, node, Top, tree);
        assert store.Keys == keys + {node};
        PlugNodes(c, t);
        WholeAgain(store, c, t);
        tree := Plug(c, t);
      }
    }

    method PlantRoot(node: RBNode)
      requires m_root == null && LinksValid()
      requires Unlinked(node)
      modifies this`m_root, this`store, this`tree, node
      ensures Mirrors() && RedBlack(store, tree) && m_root == Root(tree) && InOrder(tree) == [node]
      ensures store.Keys == {node} && old(store.Keys) == {} && old(InOrder(tree)) == []
    {
      m_root := node;
      node.m_color := Black;
      store := map[node := Rec(null, null, null, Black, node.m_pos)];
      tree := Node(Nil, node, Black, Nil);
      assert Nodes(Nil) == {} && Nodes(tree) == {node};
      assert Linked(store, Nil, node, Pos.Left) && Linked(store, Nil, node, Pos.Right);
      assert Linked(store, tree, null, Pos.Left) && LinkedCtx(store, Top, node) && CtxNodes(Top) == {};
      assert Config(store, Top, tree) && Good(tree);
    }

    method GetLeftmostNode() returns (cur: RBNode?, ghost c: Ctx, ghost t: Tree)
      requires Mirrors() && RedBlack(store, tree) && m_root == Root(tree)
      ensures cur == null <==> tree.Nil?
      ensures cur != null ==> Config(store, c, t) && Plug(c, t) == tree && RootAt(c, cur) == m_root
      ensures cur != null ==> t.Node? && t.node == cur && t.left.Nil? && Before(c) == []
    {
      cur, c, t := m_root, Top, tree;
      if m_root == null {
        return;
      }
      Around(store, c, t);
      while cur.left != null
        invariant cur != null && Config(store, c, t) && Plug(c, t) == tree && RootAt(c, cur) == m_root
        invariant t.Node? && t.node == cur && cur in store && cur.left == Root(t.left) && Before(c) == []
        decreases t
      {
        ConfigDown(store, c, t);
        cur, c, t := cur.left, LeftOf(t.node, t.color, t.right, c), t.left;
        Around(store, c, t);
      }
    }

    // The parent forgets node.
    method Unlink(node: RBNode, ghost c: Ctx, ghost k: Color)
      requires Mirrors() && Config(store, c, Node(Nil, node, k, Nil)) && !c.Top?
      modifies this`store, store.Keys
      ensures Mirrors() && store.Keys == old(store.Keys) - {node} && m_root == old(m_root)
      ensures Config(store, c, Nil)
    {
      ghost var s, t := store, Node(Nil, node, k, Nil);
      Around(s, c, t);
      LinkedCtxNodes(s, c, node);
      if node.m_pos == Pos.Left {
        SetLeft(node.parent, null);
      } else {
        SetRight(node.parent, null);
      }
      store := store - {node};
      LeafOutOf(s, store, c, node);
    }

    method RemoveRedLeaf(node: RBNode, ghost c: Ctx) returns (ghost t': Tree)
      requires Mirrors() && Config(store, c, Leaf(node)) && store.Keys == CtxNodes(c) + {node}
      requires m_root == RootAt(c, node) && GoodCtx(c, 0, true)
      modifies this`store, store.Keys
      ensures Mirrors() && store.Keys == old(store.Keys) - {node} && m_root == Root(t')
      ensures RedBlack(store, t') && InOrder(t') == Before(c) + After(c)
    {
      Around(store, c, Leaf(node));
      Relaxed(c, 0);
      Unlink(node, c, Red);
      node.parent := null;
      WholeWithout(store, c, node);
      t' := Plug(c, Nil);
    }

    // node's only child takes its place and becomes black.
    method Splice(node: RBNode, u: RBNode, ghost c: Ctx)
      requires Mirrors() && node in store && u in store && u != node && (node == m_root <==> c.Top?)
      requires Fits(store[node], Holder(c), Side(c), Black, null, u)
      requires !c.Top? ==> c.node in store && c.node != u && c.node != node
      modifies this`m_root, this`store, store.Keys
      ensures Mirrors() && store == Spliced(old(store) - {node}, c, u)
      ensures m_root == if c.Top? then u else old(m_root)
    {
      var parent, pos := node.parent, node.m_pos;
      store := store - {node};
      SetColor(u, Black);
      if node == m_root {
        m_root := u;
        SetParent(u, null);
      } else {
        SpliceBelow(parent, pos, u, c);
      }
    }

    method SpliceBelow(parent: RBNode, pos: Pos, u: RBNode, ghost c: Ctx)
      requires Mirrors() && u in store && parent in store && parent != u
      requires !c.Top? && c.node == parent && Side(c) == pos
      modifies this`store, store.Keys
      ensures Mirrors() && m_root == old(m_root)
      ensures var hung := if c.LeftOf? then WithLeft(old(store), parent, u) else WithRight(old(store), parent, u);
        store == WithPos(WithParent(hung, u, parent), u, pos)
    {
      if pos == Pos.Left {
        SetLeft(parent, u);
      } else {
        SetRight(parent, u);
      }
      SetParent(u, parent);
      SetPos(u, pos);
    }

    // node is black and its only child is red.
    method RemoveAboveRed(node: RBNode, ghost c: Ctx, ghost u': RBNode) returns (ghost t': Tree)
      requires Mirrors() && Config(store, c, Node(Nil, node, Black, Leaf(u')))
      requires store.Keys == CtxNodes(c) + {node, u'}
      requires m_root == RootAt(c, node) && GoodCtx(c, 1, false)
      modifies this`m_root, this`store, store.Keys
      ensures Mirrors() && store.Keys == old(store.Keys) - {node} && m_root == Root(t')
      ensures RedBlack(store, t') && InOrder(t') == Before(c) + [u'] + After(c)
    {
      hide RedBlack, GoodCtx, Before, After;
      SplicedWhole(store, c, node, u');
      Around(store, c, Node(Nil, node, Black, Leaf(u')));
      if !c.Top? { RootAtInside(c, node); }
      t' := Plug(c, Node(Nil, u', Black, Nil));
      var wasRoot := node == m_root;
      Splice(node, node.right, c);
      Forget(node, wasRoot);
    }

    // The removed node's own link into the tree.
    method Forget(node: RBNode, wasRoot: bool)
      requires Mirrors() && node !in store
      modifies node`right, node`parent
      ensures Mirrors()
    {
      if wasRoot {
        node.right := null;
      } else {
        node.parent := null;
      }
    }

    method RemoveBlackLeaf(node: RBNode, ghost c: Ctx) returns (ghost t': Tree)
      requires Mirrors() && Config(store, c, Node(Nil, node, Black, Nil)) && store.Keys == CtxNodes(c) + {node}
      requires m_root == RootAt(c, node) && GoodCtx(c, 1, false)
      modifies this`m_root, this`store, store.Keys
      ensures Mirrors() && store.Keys == old(store.Keys) - {node} && m_root == Root(t')
      ensures RedBlack(store, t') && InOrder(t') == Before(c) + After(c)
    {
      ghost var t := Node(Nil, node, Black, Nil);
      ghost var c' := FixDB(node, c, t, 0);
      assert SameSides(c, c') && GoodCtx(c', 0, false);
      Around(store, c', t);
      if !c'.Top? { RootAtInside(c', node); }
      if node == m_root {
        m_root := null;
        store := store - {node};
        assert Config(store, Top, Nil);
      } else {
        Unlink(node, c', Black);
      }
      WholeWithout(store, c', node);
      t' := Plug(c', Nil);
    }

    // The three ways to take out a node without a left child.
    method TakeOut(node: RBNode, ghost c: Ctx, ghost t: Tree) returns (ghost t': Tree)
      requires Mirrors() && Config(store, c, t) && RedBlack(store, Plug(c, t)) && m_root == RootAt(c, node)
      requires t.Node? && t.node == node && t.left.Nil?
      modifies this`m_root, this`store, store.Keys
      ensures Mirrors() && store.Keys == old(store.Keys) - {node} && m_root == Root(t')
      ensures RedBlack(store, t') && InOrder(t') == Before(c) + InOrder(t.right) + After(c)
    {
      LeftmostCases(store, c, t);
      Around(store, c, t);
      AroundChildren(store, c, t);
      assert Before(c) + InOrder(Nil) == Before(c);
      var childRed := node.right != null && node.right.m_color == Red;
      if node.IsLeaf() && node.m_color == Red {
        t' := RemoveRedLeaf(node, c);
        assert t.right == Nil;
      } else if node.m_color == Red || childRed {
        t' := RemoveAboveRed(node, c, t.right.node);
        assert InOrder(t.right) == [t.right.node];
      } else {
        // A black node with one black child cannot occur.
        t' := RemoveBlackLeaf(node, c);
        assert t.right == Nil;
      }
    }

    // The leftmost node leaves the tree, and the order of the rest is unchanged.
    method Extract(node: RBNode, ghost c: Ctx, ghost t: Tree)
      requires Mirrors() && Config(store, c, t) && RedBlack(store, tree) && m_root == RootAt(c, node)
      requires t.Node? && t.node == node && t.left.Nil? && Before(c) == [] && Plug(c, t) == tree
      modifies this`m_root, this`store, this`tree, store.Keys
      ensures LinksValid() && store.Keys == old(store.Keys) - {node}
      ensures old(InOrder(tree)) == [node] + InOrder(tree)
    {
      hide RedBlack, InOrder, Config, Plug, Sorted, Mirrors, Before, After;
      LeftmostOrder(c, t);
      ghost var t' := TakeOut(node, c, t);
      tree := t';
    }

    method RemoveLeftmostNode() returns (node: RBNode?)
      requires TreeValid()
      modifies this`m_root, this`store, this`tree, this`m_size, store.Keys
      ensures TreeValid()
      ensures node == null <==> old(Queue()) == []
      ensures node == null ==> Queue() == [] && store == old(store)
      ensures node != null ==> node == old(Queue())[0] && Queue() == old(Queue())[1..]
      ensures node != null ==> store.Keys == old(store.Keys) - {node} && node in old(store.Keys)
    {
      hide RedBlack, InOrder, Config, Plug, Sorted, Mirrors, Before;
      EmptyOrNode(tree);
      ghost var c, t;
      node, c, t := GetLeftmostNode();
      if node == null {
        return;
      }
      assert node in store by { Around(store, c, t); }
      TailSorted(InOrder(tree));
      Extract(node, c, t);
      m_size := m_size - 1;
    }

    /** Counts the black nodes on the paths below node, and reports a mismatch. */
    method NumBlackNodes(node: RBNode?, ghost c: Ctx, ghost t: Tree) returns (r: Option<nat>)
      requires Mirrors() && Config(store, c, t) && Root(t) == node
      ensures r == if Balanced(t) then Some(BlackHeight(t)) else None
      decreases t
    {
      if node == null {
        return Some(0);
      }
      Around(store, c, t);
      ConfigDown(store, c, t);
      var right_black_nodes := NumBlackNodes(node.right, RightOf(t.left, t.node, t.color, c), t.right);
      var left_black_nodes := NumBlackNodes(node.left, LeftOf(t.node, t.color, t.right, c), t.left);
      if right_black_nodes.None? || left_black_nodes.None? || right_black_nodes.value != left_black_nodes.value {
        return None;
      }
      return Some(if node.m_color == Black then left_black_nodes.value + 1 else left_black_nodes.value);
    }
  }
}
