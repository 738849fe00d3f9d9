/** The node pool: fixed-size blocks handed out from a free list that is threaded through the
    free blocks themselves and initialised ten blocks at a time. */
module MemoryPool {
  import opened Wrappers

  const INIT_STEP: nat := 10
  const BLOCK_SIZE: nat := 64
  const HEADER_SIZE: nat := 40

  // ---------- The free list as a value ----------

  // Following the links m times from the head.
  ghost function Follow(link: seq<nat>, head: nat, m: nat): nat {
    if m == 0 then head
    else var i := Follow(link, head, m - 1); if i < |link| then link[i] else i
  }

  // What the m-th link must be: a free block, or the first uninitialised index.
  ghost function Target(chain: seq<nat>, end: nat, m: nat): nat {
    if m < |chain| then chain[m] else end
  }

  /** Of the blocks below `end`, those in `live` are in clients' hands and the others are
      chained from `head`, in the order of `chain`, to the end mark. */
  ghost predicate FreeList(link: seq<nat>, head: nat, end: nat, chain: seq<nat>, live: set<nat>) {
    && end <= |link|
    && (forall b :: b in live ==> b < end)
    && (forall b: nat :: b < end ==> (b in live <==> b !in chain))
    && (forall i :: 0 <= i < |chain| ==> chain[i] < end)
    && (forall i, j :: 0 <= i < j < |chain| ==> chain[i] != chain[j])
    && head == Target(chain, end, 0)
    && (forall i: nat {:trigger link[chain[i]]} :: i < |chain| ==> link[chain[i]] == Target(chain, end, i + 1))
  }

  lemma Popped(link: seq<nat>, head: nat, end: nat, chain: seq<nat>, live: set<nat>)
    requires FreeList(link, head, end, chain, live) && chain != []
    ensures head == chain[0] && head < end && head !in live
    ensures FreeList(link, link[head], end, chain[1..], live + {head})
  {
    assert chain == [chain[0]] + chain[1..];
    assert head in chain;
  }

  lemma Pushed(link: seq<nat>, head: nat, end: nat, chain: seq<nat>, live: set<nat>, b: nat)
    requires FreeList(link, head, end, chain, live) && b in live
    ensures FreeList(link[b := head], b, end, [b] + chain, live - {b})
  {
    Untouched(link, head, end, chain, live, b, head);
  }

  lemma Untouched(link: seq<nat>, head: nat, end: nat, chain: seq<nat>, live: set<nat>, b: nat, word: nat)
    requires FreeList(link, head, end, chain, live) && b in live
    ensures FreeList(link[b := word], head, end, chain, live)
  {
    forall i: nat | i < |chain| ensures chain[i] != b {
      assert chain[i] in chain;
    }
  }

  lemma Refilled(link: seq<nat>, link': seq<nat>, head: nat, end: nat, live: set<nat>, more: nat)
    requires FreeList(link, head, end, [], live)
    requires end + more <= |link'|
    requires forall i :: end <= i < end + more ==> link'[i] == i + 1
    ensures FreeList(link', head, end + more, seq(more, k requires 0 <= k => end + k), live)
  {
    var chain := seq(more, k requires 0 <= k => end + k);
    forall b: nat | end <= b < end + more ensures b in chain {
      assert chain[b - end] == b;
    }
  }

  /** The links starting at the head lead through every block that nobody holds, once each,
      and then to the first uninitialised index. */
  lemma {:induction false} ChainFromHead(link: seq<nat>, head: nat, end: nat, chain: seq<nat>, live: set<nat>, m: nat)
    requires FreeList(link, head, end, chain, live) && m <= |chain|
    ensures Follow(link, head, m) == if m < |chain| then chain[m] else end
  {
    if m > 0 {
      ChainFromHead(link, head, end, chain, live, m - 1);
      assert link[chain[m - 1]] == Target(chain, end, m);
    }
  }

  lemma EveryFreeBlockOnChain(link: seq<nat>, head: nat, end: nat, chain: seq<nat>, live: set<nat>, b: nat)
    requires FreeList(link, head, end, chain, live) && b < end
    ensures b !in live <==> exists m: nat :: m < |chain| && Follow(link, head, m) == b
  {
    forall m: nat | m < |chain| ensures Follow(link, head, m) == chain[m] {
      ChainFromHead(link, head, end, chain, live, m);
    }
    if b !in live {
      var m: nat :| m < |chain| && chain[m] == b;
      assert Follow(link, head, m) == b;
    }
  }

  // ---------- The pool ----------

  class MemPool {
    const mem_start: nat
    const m_num_blocks_total: nat
    // The first word of every block: the next free index while the block is free,
    // the client's data while it is live.
    const link: array<nat>
    var m_head: nat
    var m_high_mark: nat
    var m_num_blocks_allocd: nat
    var m_num_blocks_free: nat
    var m_num_blocks_initialized: nat
    // The free blocks in the order in which they will be handed out.
    ghost var chain: seq<nat>
    // The blocks in clients' hands.
    ghost var live: set<nat>

    ghost predicate Valid()
      reads this, link
    {
      && m_num_blocks_total == link.Length
      && m_num_blocks_free == |chain| && m_num_blocks_allocd == |live|
      && |live| + |chain| == m_num_blocks_initialized
      && FreeList(link[..], m_head, m_num_blocks_initialized, chain, live)
    }

    constructor (mem: nat, size: nat)
      requires HEADER_SIZE + INIT_STEP * BLOCK_SIZE <= size
      ensures Valid() && fresh(link) && live == {}
      ensures m_num_blocks_total == (size - HEADER_SIZE) / BLOCK_SIZE && m_high_mark == 0
    {
      mem_start := mem + HEADER_SIZE;
      var num_blocks := (size - HEADER_SIZE) / BLOCK_SIZE;
      var blocks := new nat[num_blocks];
      var i := 0;
      while i < INIT_STEP
        invariant 0 <= i <= INIT_STEP
        invariant forall j :: 0 <= j < i ==> blocks[j] == j + 1
      {
        blocks[i] := i + 1;
        i := i + 1;
      }
      link := blocks;
      m_head, m_high_mark := 0, 0;
      m_num_blocks_allocd := 0;
      m_num_blocks_total := num_blocks;
      m_num_blocks_initialized := INIT_STEP;
      m_num_blocks_free := INIT_STEP;
      live := {};
      chain := seq(INIT_STEP, k requires 0 <= k => 0 + k);
      Refilled([], blocks[..], 0, 0, {}, INIT_STEP);
    }

    function GetIdxFromPtr(ptr: nat): (n: nat)
      requires mem_start <= ptr
    {
      (ptr - mem_start) / BLOCK_SIZE
    }

    function GetBlockN(n: nat): (ptr: nat)
      ensures mem_start <= ptr && GetIdxFromPtr(ptr) == n
    {
      mem_start + n * BLOCK_SIZE
    }

    // A pointer to the start of a block of this pool.
    predicate IsBlock(ptr: nat) {
      && mem_start <= ptr && ptr == GetBlockN(GetIdxFromPtr(ptr))
      && GetIdxFromPtr(ptr) < m_num_blocks_total
    }

    // Only called with an empty free list, so the list becomes the new blocks.
    method InitMoreBlocks()
      requires Valid() && chain == []
      modifies this, link
      ensures Valid() && live == old(live) && m_high_mark == old(m_high_mark)
      ensures m_num_blocks_initialized == old(m_num_blocks_initialized) + |chain|
      ensures |chain| == if m_num_blocks_total - old(m_num_blocks_initialized) < INIT_STEP
                         then m_num_blocks_total - old(m_num_blocks_initialized) else INIT_STEP
      ensures forall b :: b in live ==> link[b] == old(link[b])
    {
      var num_blocks_to_init;
      if m_num_blocks_total - m_num_blocks_initialized < INIT_STEP {
        num_blocks_to_init := m_num_blocks_total - m_num_blocks_initialized;
      } else {
        num_blocks_to_init := INIT_STEP;
      }
      var i := 0;
      while i < num_blocks_to_init
        invariant 0 <= i <= num_blocks_to_init
        invariant forall j :: m_num_blocks_initialized <= j < m_num_blocks_initialized + i ==> link[j] == j + 1
        invariant forall j :: 0 <= j < m_num_blocks_initialized ==> link[j] == old(link[j])
        modifies link
      {
        link[i + m_num_blocks_initialized] := i + m_num_blocks_initialized + 1;
        i := i + 1;
      }
      Refilled(old(link[..]), link[..], m_head, m_num_blocks_initialized, live, num_blocks_to_init);
      ghost var start := m_num_blocks_initialized;
      chain := seq(num_blocks_to_init, k requires 0 <= k => start + k);
      m_num_blocks_initialized := m_num_blocks_initialized + num_blocks_to_init;
      m_num_blocks_free := m_num_blocks_free + num_blocks_to_init;
    }

    method AllocBlock() returns (p: Option<nat>)
      requires Valid()
      modifies this, link
      ensures Valid()
      ensures p.None? <==> old(|live|) == m_num_blocks_total
      ensures p.None? ==> live == old(live)
      ensures m_num_blocks_allocd == old(m_num_blocks_allocd) + (if p.Some? then 1 else 0)
      ensures p.Some? ==>
        && IsBlock(p.value) && GetIdxFromPtr(p.value) !in old(live)
        && live == old(live) + {GetIdxFromPtr(p.value)}
        && m_high_mark == if old(m_high_mark) < GetIdxFromPtr(p.value) then GetIdxFromPtr(p.value) else old(m_high_mark)
      // blocks already in use are not written
      ensures forall b :: b in old(live) ==> link[b] == old(link[b])
    {
      if m_num_blocks_allocd >= m_num_blocks_initialized {
        if m_num_blocks_initialized >= m_num_blocks_total {
          return None;
        }
        InitMoreBlocks();
      }
      Popped(link[..], m_head, m_num_blocks_initialized, chain, live);
      var free_block := GetBlockN(m_head);
      chain, live := chain[1..], live + {m_head};
      m_head := link[m_head];
      var our_idx := GetIdxFromPtr(free_block);
      if m_high_mark < our_idx {
        m_high_mark := our_idx;
      }
      m_num_blocks_allocd := m_num_blocks_allocd + 1;
      m_num_blocks_free := m_num_blocks_free - 1;
      p := Some(free_block);
    }

    method FreeBlock(to_free: nat)
      requires Valid() && IsBlock(to_free) && GetIdxFromPtr(to_free) in live
      modifies this, link
      ensures Valid() && live == old(live) - {GetIdxFromPtr(to_free)}
      ensures m_num_blocks_allocd == old(m_num_blocks_allocd) - 1
      ensures m_head == GetIdxFromPtr(to_free) && m_high_mark == old(m_high_mark)
      ensures forall b :: b in live ==> link[b] == old(link[b])
    {
      var to_free_idx := GetIdxFromPtr(to_free);
      Pushed(link[..], m_head, m_num_blocks_initialized, chain, live, to_free_idx);
      link[to_free_idx] := m_head;
      assert link[..] == old(link[..])[to_free_idx := m_head];
      m_head := to_free_idx;
      m_num_blocks_allocd := m_num_blocks_allocd - 1;
      m_num_blocks_free := m_num_blocks_free + 1;
      chain, live := [to_free_idx] + chain, live - {to_free_idx};
    }

    // A client writing whatever it likes to the first word of a block it holds.
    method ClientWrite(ptr: nat, word: nat)
      requires Valid() && IsBlock(ptr) && GetIdxFromPtr(ptr) in live
      modifies link
      ensures Valid() && live == old(live)
      ensures link[..] == old(link[..])[GetIdxFromPtr(ptr) := word]
    {
      Untouched(link[..], m_head, m_num_blocks_initialized, chain, live, GetIdxFromPtr(ptr), word);
      link[GetIdxFromPtr(ptr)] := word;
      assert link[..] == old(link[..])[GetIdxFromPtr(ptr) := word];
    }
  }
}
