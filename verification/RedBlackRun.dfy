/** Whole runs of the tree: any sequence of insertions and removals of the leftmost node. */
module RedBlackRun {
  import opened Entities
  import opened Numbers
  import opened RedBlackModel
  import opened RedBlackTree
  import MemoryPool

  datatype Op = Add(key: nat) | RemoveLeftmost

  // ---------- The sorted list that the tree stands for ----------

  function InsertKey(s: seq<nat>, k: nat): (r: seq<nat>)
    ensures |r| == |s| + 1
  {
    if s == [] || s[0] >= k then [k] + s else [s[0]] + InsertKey(s[1..], k)
  }

  function Done(s: seq<nat>, op: Op): seq<nat> {
    match op
    case Add(k) => InsertKey(s, k)
    case RemoveLeftmost => if s == [] then [] else s[1..]
  }

  // The keys after all operations.
  function AllDone(s: seq<nat>, ops: seq<Op>): seq<nat>
    decreases |ops|
  {
    if ops == [] then s else AllDone(Done(s, ops[0]), ops[1..])
  }

  // The keys that the removals gave, in order.
  function Removed(s: seq<nat>, ops: seq<Op>): seq<nat>
    decreases |ops|
  {
    if ops == [] then []
    else (if ops[0].RemoveLeftmost? && s != [] then [s[0]] else []) + Removed(Done(s, ops[0]), ops[1..])
  }

  // The pool has a block for every key there ever is.
  ghost predicate RoomFor(s: seq<nat>, ops: seq<Op>, blocks: nat)
    decreases |ops|
  {
    ops == [] || (|Done(s, ops[0])| <= blocks && RoomFor(Done(s, ops[0]), ops[1..], blocks))
  }

  ghost function Keys(q: seq<RBNode>): (s: seq<nat>)
    ensures |s| == |q|
  {
    seq(|q|, i requires 0 <= i < |q| => q[i].m_key)
  }

  lemma {:induction false} KeysInserted(q: seq<RBNode>, n: RBNode)
    ensures Keys(Insert(q, n)) == InsertKey(Keys(q), n.m_key)
  {
    if q != [] && q[0].m_key < n.m_key {
      KeysInserted(q[1..], n);
      assert Keys(q)[1..] == Keys(q[1..]);
    }
  }

  // ---------- The run ----------

  // Between operations every node that has a block is in the tree.
  ghost predicate Settled(t: RBTree)
    reads t, t.store.Keys, t.m_mpool, t.m_mpool.link
  {
    true == (t.Valid() && t.held == t.store.Keys)
  }

  method Apply(t: RBTree, op: Op, se: SchedEntity) returns (key: seq<nat>)
    requires Settled(t) && |Done(Keys(t.Queue()), op)| <= t.m_mpool.m_num_blocks_total
    modifies t, t.store.Keys, t.m_mpool, t.m_mpool.link
    ensures Settled(t) && Keys(t.Queue()) == Done(old(Keys(t.Queue())), op)
    ensures key == if op.RemoveLeftmost? && old(Keys(t.Queue())) != [] then [old(Keys(t.Queue()))[0]] else []
    ensures forall n :: n in t.store.Keys ==> n in old(t.store.Keys) || fresh(n)
  {
    hide RBTree.TreeValid, RBTree.PoolValid, Insert;
    ghost var q := t.Queue();
    key := [];
    match op
    case Add(k) =>
      t.OneBlockEach();
      ghost var n := t.Add(k, se, se.id);
      KeysInserted(q, n);
    case RemoveLeftmost =>
      var node := t.RemoveLeftmostNode();
      if node != null {
        key := [node.m_key];
        t.DeleteNode(node);
      }
  }

  // So many operations have been done, with these keys left and these given.
  ghost predicate Running(s: seq<nat>, ops: seq<Op>, i: nat, removed: seq<nat>, blocks: nat) {
    && i <= |ops| && RoomFor(s, ops[i..], blocks)
    && AllDone(s, ops[i..]) == AllDone([], ops) && removed + Removed(s, ops[i..]) == Removed([], ops)
  }

  lemma RunStarts(ops: seq<Op>, blocks: nat)
    requires RoomFor([], ops, blocks)
    ensures Running([], ops, 0, [], blocks)
  {
    assert ops[0..] == ops;
  }

  lemma RunStep(s: seq<nat>, ops: seq<Op>, i: nat, removed: seq<nat>, blocks: nat)
    requires Running(s, ops, i, removed, blocks) && i < |ops|
    ensures |Done(s, ops[i])| <= blocks
    ensures var given := if ops[i].RemoveLeftmost? && s != [] then [s[0]] else [];
      Running(Done(s, ops[i]), ops, i + 1, removed + given, blocks)
  {
    hide Done;
    assert ops[i..][1..] == ops[i + 1..];
    var given := if ops[i].RemoveLeftmost? && s != [] then [s[0]] else [];
    var later := Removed(Done(s, ops[i]), ops[i + 1..]);
    assert removed + (given + later) == removed + given + later;
  }

  lemma RunEnds(s: seq<nat>, ops: seq<Op>, removed: seq<nat>, blocks: nat)
    requires Running(s, ops, |ops|, removed, blocks)
    ensures s == AllDone([], ops) && removed == Removed([], ops)
  {
    assert removed + [] == removed;
  }

  /** After every sequence of operations from the empty tree: the links spell out a red-black
      tree, what the removals gave and what is left are those of a sorted list, and the height
      is at most twice the binary logarithm of the size plus one. */
  method Replay(ops: seq<Op>, se: SchedEntity, heap: nat, heap_size: nat) returns (t: RBTree, removed: seq<nat>)
    requires MemoryPool.HEADER_SIZE + MemoryPool.INIT_STEP * MemoryPool.BLOCK_SIZE <= heap_size
    requires RoomFor([], ops, (heap_size - MemoryPool.HEADER_SIZE) / MemoryPool.BLOCK_SIZE)
    ensures t.TreeValid() && Keys(t.Queue()) == AllDone([], ops) && removed == Removed([], ops)
    ensures Good(t.tree) && Power(2, Height(t.tree)) <= (t.m_size + 1) * (t.m_size + 1)
  {
    hide RBTree.Valid, Done, Running;
    t := new RBTree(heap, heap_size);
    ghost var blocks := t.m_mpool.m_num_blocks_total;
    var i := 0;
    removed := [];
    NoKeys();
    RunStarts(ops, blocks);
    while i < |ops|
      invariant i <= |ops| && Settled(t) && fresh(t) && fresh(t.m_mpool) && fresh(t.m_mpool.link) && fresh(t.store.Keys)
      invariant t.m_mpool.m_num_blocks_total == blocks && Running(Keys(t.Queue()), ops, i, removed, blocks)
    {
      RunStep(Keys(t.Queue()), ops, i, removed, blocks);
      var key := Apply(t, ops[i], se);
      removed := removed + key;
      i := i + 1;
    }
    RunEnds(Keys(t.Queue()), ops, removed, blocks);
    Shape(t);
  }

  lemma NoKeys()
    ensures Keys([]) == []
  {
  }

  lemma Shape(t: RBTree)
    requires Settled(t)
    ensures t.TreeValid() && Good(t.tree) && Power(2, Height(t.tree)) <= (t.m_size + 1) * (t.m_size + 1)
  {
    HeightLogarithmic(t.tree);
  }
}
