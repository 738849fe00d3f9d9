/** The scheduler itself: entities and threads as objects, the run queue as the red-black
    tree, nodes in the pool. Each turn does to the queue what FairQueue.Turn says. */
module CfsScheduler {
  import opened Wrappers
  import opened Entities
  import opened RedBlackModel
  import opened RedBlackTree
  import MemoryPool
  import F = FairQueue
  import A = FairAccount

  ghost function Pids(rq: seq<ThreadContext>): (r: seq<nat>)
    ensures |r| == |rq|
  {
    seq(|rq|, i requires 0 <= i < |rq| => rq[i].m_pid)
  }

  // An entity's mutable fields.
  datatype Rq = Rq(vruntime: nat, rq: seq<ThreadContext>)

  // The fields of the queued entities, and the entity each of their threads is charged to.
  type Book = map<SchedEntity, Rq>
  type Charge = map<ThreadContext, SchedEntity?>

  ghost function EntOf(id: nat, r: Rq): F.Ent { F.Ent(id, r.vruntime, Pids(r.rq)) }

  ghost predicate Booked(b: Book, q: seq<RBNode>) {
    forall i :: 0 <= i < |q| ==> q[i].m_val in b
  }

  ghost function View(b: Book, q: seq<RBNode>): (r: seq<F.Ent>)
    requires Booked(b, q)
    ensures |r| == |q|
  {
    seq(|q|, i requires 0 <= i < |q| => EntOf(q[i].m_val.id, b[q[i].m_val]))
  }

  ghost predicate Distinct(rq: seq<ThreadContext>) {
    forall i, j :: 0 <= i < j < |rq| ==> rq[i] != rq[j]
  }

  // The entities of the queue are different and queued under their vruntime; the threads
  // of an entity are different threads, all charged to it.
  ghost predicate QueueOk(b: Book, c: Charge, q: seq<RBNode>) {
    && Booked(b, q)
    && (forall i :: 0 <= i < |q| ==> q[i].m_key == b[q[i].m_val].vruntime)
    && (forall i, j :: 0 <= i < j < |q| ==> q[i].m_val != q[j].m_val)
    && (forall se :: se in b ==> Distinct(b[se].rq))
    && (forall se, th :: se in b && th in b[se].rq ==> th in c && c[th] == se)
  }

  lemma QueueBooked(b: Book, c: Charge, q: seq<RBNode>)
    requires QueueOk(b, c, q)
    ensures Booked(b, q)
  {
  }

  lemma PosIsUnique(v: seq<F.Ent>, key: nat, k: nat)
    requires k <= |v| && (forall j :: 0 <= j < k ==> v[j].vruntime < key)
    requires k < |v| ==> key <= v[k].vruntime
    ensures F.InsertPos(v, key) == k
  {
    var i := F.InsertPos(v, key);
  }

  ghost function Charged(c: Charge, rq: seq<ThreadContext>, se: SchedEntity): Charge {
    c + map th | th in rq :: se
  }

  lemma InsertDistinct(q: seq<RBNode>, n: RBNode, k: nat)
    requires k <= |q| && (forall i, j :: 0 <= i < j < |q| ==> q[i].m_val != q[j].m_val)
    requires forall i :: 0 <= i < |q| ==> q[i].m_val != n.m_val
    ensures var r := q[..k] + [n] + q[k..]; forall i, j :: 0 <= i < j < |r| ==> r[i].m_val != r[j].m_val
  {
    var r := q[..k] + [n] + q[k..];
    forall i, j | 0 <= i < j < |r| ensures r[i].m_val != r[j].m_val {
      assert i != k ==> r[i] == q[if i < k then i else i - 1];
      assert j != k ==> r[j] == q[if j < k then j else j - 1];
    }
  }

  // Booking a new entity with threads that nobody else has.
  lemma BookInsert(b: Book, c: Charge, q: seq<RBNode>, n: RBNode, r: Rq)
    requires QueueOk(b, c, q) && n.m_val !in b && n.m_key == r.vruntime
    requires Distinct(r.rq) && forall th :: th in r.rq ==> th !in c
    ensures QueueOk(b[n.m_val := r], Charged(c, r.rq, n.m_val), Insert(q, n))
    ensures View(b[n.m_val := r], Insert(q, n)) == F.InsertEnt(View(b, q), EntOf(n.m_val.id, r))
  {
    var k := InsertSplits(q, n);
    hide Insert;
    BookSplice(b, c, q, n, r, k);
    PosIsUnique(View(b, q), r.vruntime, k);
  }

  lemma BookSplice(b: Book, c: Charge, q: seq<RBNode>, n: RBNode, r: Rq, k: nat)
    requires QueueOk(b, c, q) && n.m_val !in b && n.m_key == r.vruntime && k <= |q|
    requires Distinct(r.rq) && forall th :: th in r.rq ==> th !in c
    ensures QueueOk(b[n.m_val := r], Charged(c, r.rq, n.m_val), q[..k] + [n] + q[k..])
    ensures View(b[n.m_val := r], q[..k] + [n] + q[k..]) == View(b, q)[..k] + [EntOf(n.m_val.id, r)] + View(b, q)[k..]
  {
    InsertDistinct(q, n, k);
  }

  ghost function Uncharged(c: Charge, rq: seq<ThreadContext>): Charge {
    c - set th | th in rq
  }

  // Taking the first entity off the queue.
  lemma BookRemove(b: Book, c: Charge, q: seq<RBNode>)
    requires QueueOk(b, c, q) && q != []
    ensures Booked(b, q) && q[0].m_val in b
    ensures var se := q[0].m_val;
      && (forall th :: th in b[se].rq ==> th in c && c[th] == se) && Distinct(b[se].rq)
      && QueueOk(b - {se}, Uncharged(c, b[se].rq), q[1..])
      && View(b - {se}, q[1..]) == View(b, q)[1..] && View(b, q)[0] == EntOf(se.id, b[se])
  {
  }

  // The slice of an entity: the period divided among the entities there are at the start.
  function Share(period: nat, entities: nat): (share: nat)
    requires 0 < entities
    ensures share * entities <= period < share * entities + entities
  {
    period / entities
  }

  class CFSScheduler {
    const m_rbtree: RBTree
    const m_sched_period: nat
    var m_next_se: SchedEntity?
    var m_num_tasks: int
    // The last result code seen by the run loop, and the number of steps taken so far.
    var rc: F.Status
    var pos: nat
    ghost var book: Book
    ghost var charge: Charge

    constructor (sched_period: nat, heap: nat, heap_size: nat)
      requires MemoryPool.HEADER_SIZE + MemoryPool.INIT_STEP * MemoryPool.BLOCK_SIZE <= heap_size
      ensures m_sched_period == sched_period && m_next_se == null && m_num_tasks == 0 && rc == F.Success && pos == 0
      ensures book == map[] && charge == map[]
      ensures m_rbtree.Valid() && m_rbtree.Queue() == [] && m_rbtree.held == {}
      ensures fresh(m_rbtree) && fresh(m_rbtree.m_mpool) && fresh(m_rbtree.m_mpool.link) && m_rbtree.store.Keys == {}
      ensures m_rbtree.m_mpool.m_num_blocks_total == (heap_size - MemoryPool.HEADER_SIZE) / MemoryPool.BLOCK_SIZE
    {
      m_sched_period := sched_period;
      m_rbtree := new RBTree(heap, heap_size);
      m_next_se := null;
      m_num_tasks := 0;
      rc, pos := F.Success, 0;
      book, charge := map[], map[];
    }

    ghost predicate Mirrors()
      reads this`book, this`charge, book.Keys, charge.Keys
    {
      && (forall se :: se in book ==> book[se] == Rq(se.vruntime, se.my_rq))
      && (forall th :: th in charge ==> charge[th] == th.m_se)
    }

    // The threads of an entity that is off the queue.
    ghost predicate OwnThreads(se: SchedEntity)
      reads se, se.my_rq
    {
      (forall th :: th in se.my_rq ==> th.m_se == se) && Distinct(se.my_rq)
    }

    // ---------- One thread ----------

    ghost function NextOf(): Option<nat>
      reads this`m_next_se
    {
      if m_next_se == null then None else Some(m_next_se.id)
    }

    ghost function SliceOf(se: SchedEntity, j: nat): F.Slice
      reads this`m_num_tasks, this`rc, this`pos, this`m_next_se, se
    {
      F.Slice(Pids(se.my_rq), m_num_tasks, rc, pos, NextOf(), j)
    }

    // One step of a thread that is off the queue of its entity se.
    method SwitchAndExec(to_run: ThreadContext, out: F.Outcome, se: SchedEntity, ghost j: nat)
      requires OwnThreads(se) && to_run.m_se == se && to_run !in se.my_rq && m_next_se == null
      requires m_num_tasks <= F.MAX_PROCESSES
      modifies this`m_num_tasks, this`rc, this`pos, this`m_next_se, se`my_rq
      ensures OwnThreads(se) && to_run !in se.my_rq && m_num_tasks <= F.MAX_PROCESSES
      ensures forall th :: th in se.my_rq ==> th in old(se.my_rq) || fresh(th)
      ensures m_next_se != null ==>
        fresh(m_next_se) && m_next_se.vruntime == se.vruntime && m_next_se.my_rq == [] && rc == F.ThreadExit
      ensures var s := F.Step(old(SliceOf(se, j)), out, m_rbtree.m_size);
        SliceOf(se, s.j) == s && (s.j == if F.Stops(rc) then j else j + 1)
    {
      pos := pos + 1;
      match out
      case Split(p) =>
        rc := F.Success;
        if m_num_tasks < F.MAX_PROCESSES {
          var child := new ThreadContext(p, to_run.m_se);
          ScheduleClone(child, se);
        }
      case SetSid(id) =>
        if m_rbtree.m_size >= F.MAX_PROCESSES - 1 {
          rc := F.Success;
        } else {
          m_next_se := new SchedEntity(id, to_run.m_se.vruntime);
          rc := F.ThreadExit;
        }
      case Fine => rc := F.Success;
      case Error => rc := F.OtherError;
      case Exit => rc := F.ThreadExit;
      case Crash => rc := F.Fault;
    }

    // ScheduleThread for a cloned thread: it joins the queue of the entity it inherited.
    method ScheduleClone(ctx: ThreadContext, se: SchedEntity)
      requires OwnThreads(se) && ctx.m_se == se && ctx !in se.my_rq && m_num_tasks < F.MAX_PROCESSES
      modifies this`m_num_tasks, se`my_rq
      ensures OwnThreads(se) && se.my_rq == old(se.my_rq) + [ctx]
      ensures Pids(se.my_rq) == old(Pids(se.my_rq)) + [ctx.m_pid]
      ensures m_num_tasks == old(m_num_tasks) + 1
    {
      m_num_tasks := m_num_tasks + 1;
      se.my_rq := se.my_rq + [ctx];
      // the program aborts here when there are more than 30 tasks
      assert m_num_tasks <= F.MAX_PROCESSES;
    }

    // Up to perTask steps, ended early by an exit or a fault.
    method RunSlice(o: F.Future, to_run: ThreadContext, se: SchedEntity, perTask: nat) returns (j: nat)
      requires OwnThreads(se) && to_run.m_se == se && to_run !in se.my_rq && m_next_se == null
      requires m_num_tasks <= F.MAX_PROCESSES
      modifies this`m_num_tasks, this`rc, this`pos, this`m_next_se, se`my_rq
      ensures OwnThreads(se) && to_run !in se.my_rq && m_num_tasks <= F.MAX_PROCESSES
      ensures forall th :: th in se.my_rq ==> th in old(se.my_rq) || fresh(th)
      ensures m_next_se != null ==>
        fresh(m_next_se) && m_next_se.vruntime == se.vruntime && m_next_se.my_rq == [] && rc == F.ThreadExit
      ensures SliceOf(se, j) == F.Exec(o, old(SliceOf(se, 0)), m_rbtree.m_size, perTask)
    {
      j := 0;
      ghost var s0 := SliceOf(se, 0);
      while j < perTask
        invariant 0 <= j <= perTask
        invariant OwnThreads(se) && to_run !in se.my_rq && m_num_tasks <= F.MAX_PROCESSES && m_next_se == null
        invariant forall th :: th in se.my_rq ==> th in old(se.my_rq) || fresh(th)
        invariant F.Exec(o, s0, m_rbtree.m_size, perTask) == F.Exec(o, SliceOf(se, j), m_rbtree.m_size, perTask - j)
        decreases perTask - j
      {
        SwitchAndExec(to_run, o(pos), se, j);
        if rc == F.ThreadExit || rc == F.Fault {
          break;
        }
        j := j + 1;
      }
    }

    // ---------- One entity ----------

    ghost predicate Booking()
      reads this`book, this`charge, book.Keys, charge.Keys, m_rbtree`tree
    {
      Mirrors() && QueueOk(book, charge, m_rbtree.Queue())
    }

    // Blocks are held by nothing but the queue's nodes and those given.
    ghost predicate Holding(off: set<RBNode>)
      reads m_rbtree`held, m_rbtree`store
    {
      true == (m_rbtree.held == m_rbtree.store.Keys + off && m_rbtree.store.Keys !! off)
    }

    // There are as many live blocks as nodes in the queue and nodes given.
    lemma OneBlockEach(off: set<RBNode>)
      requires m_rbtree.Valid() && Holding(off)
      ensures m_rbtree.m_mpool.m_num_blocks_allocd == |m_rbtree.Queue()| + |off|
      ensures m_rbtree.m_size == |m_rbtree.Queue()|
    {
      CountNodes(m_rbtree.store, m_rbtree.tree, null, Pos.Left);
    }

    // The entity's node goes into the tree; the entities themselves do not change.
    method AddEntity(se: SchedEntity, ghost off: set<RBNode>) returns (ghost n: RBNode)
      requires m_rbtree.Valid() && Mirrors() && Holding(off)
      requires m_rbtree.m_mpool.m_num_blocks_allocd < m_rbtree.m_mpool.m_num_blocks_total
      modifies m_rbtree, m_rbtree.store.Keys, m_rbtree.m_mpool, m_rbtree.m_mpool.link
      ensures m_rbtree.Valid() && Mirrors() && Holding(off)
      ensures m_rbtree.Queue() == Insert(old(m_rbtree.Queue()), n) && (n.m_key, n.m_val) == (se.vruntime, se)
      ensures fresh(m_rbtree.store.Keys - old(m_rbtree.store.Keys))
    {
      hide Insert, RBTree.TreeValid, RBTree.PoolValid;
      n := m_rbtree.Add(se.vruntime, se, se.id);
    }

    // An entity that is off the queue, with threads that no queued entity has.
    ghost predicate Away(se: SchedEntity)
      reads this`book, this`charge, se, se.my_rq
    {
      se !in book && OwnThreads(se) && forall th :: th in se.my_rq ==> th !in charge
    }

    // The book entry of an entity that has just been queued.
    ghost method Enter(se: SchedEntity, n: RBNode, q: seq<RBNode>)
      requires Mirrors() && QueueOk(book, charge, q) && Away(se) && (n.m_key, n.m_val) == (se.vruntime, se)
      modifies this`book, this`charge
      ensures Mirrors() && QueueOk(book, charge, Insert(q, n))
      ensures View(book, Insert(q, n)) == F.InsertEnt(View(old(book), q), EntOf(se.id, Rq(se.vruntime, se.my_rq)))
      ensures book.Keys == old(book).Keys + {se} && charge.Keys == old(charge).Keys + (set th | th in se.my_rq)
    {
      hide QueueOk, View, Insert, F.InsertEnt;
      var r := Rq(se.vruntime, se.my_rq);
      BookInsert(book, charge, q, n, r);
      book, charge := book[se := r], Charged(charge, r.rq, se);
    }

    // An entity goes back into the queue.
    method Requeue(se: SchedEntity, ghost off: set<RBNode>)
      requires m_rbtree.Valid() && Booking() && Holding(off) && Away(se)
      requires m_rbtree.m_mpool.m_num_blocks_allocd < m_rbtree.m_mpool.m_num_blocks_total
      modifies m_rbtree, m_rbtree.store.Keys, m_rbtree.m_mpool, m_rbtree.m_mpool.link, this`book, this`charge
      ensures m_rbtree.Valid() && Booking() && Holding(off)
      ensures View(book, m_rbtree.Queue())
           == F.InsertEnt(old(View(book, m_rbtree.Queue())), EntOf(se.id, Rq(se.vruntime, se.my_rq)))
      ensures book.Keys == old(book).Keys + {se} && charge.Keys == old(charge).Keys + (set th | th in se.my_rq)
      ensures fresh(m_rbtree.store.Keys - old(m_rbtree.store.Keys))
    {
      hide Insert, RBTree.TreeValid, RBTree.PoolValid, QueueOk, View, F.InsertEnt;
      ghost var q := m_rbtree.Queue();
      ghost var n := AddEntity(se, off);
      Enter(se, n, q);
    }

    // ScheduleThread for a thread that is not a clone: its entity joins the queue with it.
    method ScheduleThread(ctx: ThreadContext, ghost off: set<RBNode>)
      requires m_rbtree.Valid() && Booking() && Holding(off)
      requires ctx.m_se != null && ctx.m_se !in book && ctx.m_se.my_rq == [] && ctx !in charge
      requires m_rbtree.m_mpool.m_num_blocks_allocd < m_rbtree.m_mpool.m_num_blocks_total
      requires m_num_tasks <= F.MAX_PROCESSES
      modifies m_rbtree, m_rbtree.store.Keys, m_rbtree.m_mpool, m_rbtree.m_mpool.link
      modifies this`book, this`charge, ctx.m_se`my_rq
      ensures m_rbtree.Valid() && Booking() && Holding(off) && ctx.m_se == old(ctx.m_se)
      ensures View(book, m_rbtree.Queue())
           == F.InsertEnt(old(View(book, m_rbtree.Queue())), F.Ent(ctx.m_se.id, ctx.m_se.vruntime, [ctx.m_pid]))
      ensures book.Keys == old(book).Keys + {ctx.m_se} && charge.Keys == old(charge).Keys + {ctx}
      ensures fresh(m_rbtree.store.Keys - old(m_rbtree.store.Keys))
    {
      hide Insert, RBTree.TreeValid, RBTree.PoolValid, QueueOk, View, F.InsertEnt;
      ghost var q := m_rbtree.Queue();
      ghost var n := AddEntity(ctx.m_se, off);
      ctx.m_se.my_rq := ctx.m_se.my_rq + [ctx];
      Enter(ctx.m_se, n, q);
      assert Pids(ctx.m_se.my_rq) == [ctx.m_pid];
      // the program aborts here when there are more than 30 tasks
      assert m_num_tasks <= F.MAX_PROCESSES;
    }

    ghost function WorkOf(se: SchedEntity): F.Work
      requires Booked(book, m_rbtree.Queue())
      reads this`book, this`m_num_tasks, this`rc, this`pos, m_rbtree`tree, se
    {
      F.Work(F.Ent(se.id, se.vruntime, Pids(se.my_rq)), View(book, m_rbtree.Queue()), m_num_tasks, rc, pos)
    }

    // The queue is in order, and the nodes of off are off it.
    ghost predicate Queued(off: set<RBNode>)
      reads this`book, this`charge, book.Keys, charge.Keys
      reads m_rbtree, m_rbtree.store.Keys, m_rbtree.m_mpool, m_rbtree.m_mpool.link
    {
      true == (m_rbtree.Valid() && Booking() && Holding(off))
    }

    // The first thread of the entity comes off its queue and runs.
    method RunFirst(o: F.Future, se: SchedEntity, perTask: nat) returns (to_run: ThreadContext, j: nat)
      requires Away(se) && m_num_tasks <= F.MAX_PROCESSES && m_next_se == null && se.my_rq != []
      modifies this`m_num_tasks, this`rc, this`pos, this`m_next_se, se`my_rq
      ensures Away(se) && m_num_tasks <= F.MAX_PROCESSES
      ensures to_run == old(se.my_rq)[0] && to_run !in se.my_rq && to_run !in charge && to_run.m_se == se
      ensures m_next_se != null ==>
        fresh(m_next_se) && m_next_se.vruntime == se.vruntime && m_next_se.my_rq == [] && rc == F.ThreadExit
      ensures to_run.m_pid == old(Pids(se.my_rq))[0]
      ensures SliceOf(se, j)
           == F.Exec(o, F.Slice(old(Pids(se.my_rq))[1..], old(m_num_tasks), old(rc), old(pos), None, 0),
                m_rbtree.m_size, perTask)
      ensures forall th :: th in se.my_rq ==> th in old(se.my_rq) || fresh(th)
    {
      hide F.Exec;
      to_run := se.my_rq[0];
      ghost var ids := Pids(se.my_rq);
      se.my_rq := se.my_rq[1..];
      assert Pids(se.my_rq) == ids[1..];
      j := RunSlice(o, to_run, se, perTask);
    }

    // A thread that asked for an entity of its own is queued with it.
    method MoveOut(to_run: ThreadContext, ghost off: set<RBNode>)
      requires Queued(off) && Booked(book, m_rbtree.Queue()) && to_run !in charge && m_num_tasks <= F.MAX_PROCESSES
      requires m_next_se != null && m_next_se !in book && m_next_se.my_rq == []
      requires m_rbtree.m_mpool.m_num_blocks_allocd < m_rbtree.m_mpool.m_num_blocks_total
      modifies this`m_next_se, to_run`m_se, m_next_se`my_rq, this`book, this`charge
      modifies m_rbtree, m_rbtree.store.Keys, m_rbtree.m_mpool, m_rbtree.m_mpool.link
      ensures Queued(off) && Booked(book, m_rbtree.Queue()) && m_next_se == null
      ensures View(book, m_rbtree.Queue()) == F.InsertEnt(old(View(book, m_rbtree.Queue())),
                F.Ent(old(m_next_se).id, old(m_next_se.vruntime), [to_run.m_pid]))
      ensures book.Keys == old(book).Keys + {old(m_next_se)} && charge.Keys == old(charge).Keys + {to_run}
      ensures fresh(m_rbtree.store.Keys - old(m_rbtree.store.Keys))
    {
      hide RBTree.Valid, Holding, QueueOk, View, F.InsertEnt;
      to_run.m_se := m_next_se;
      m_next_se := null;
      ScheduleThread(to_run, off);
      QueueBooked(book, charge, m_rbtree.Queue());
    }

    // The thread goes to the back of its entity's queue.
    method PutBack(to_run: ThreadContext, se: SchedEntity)
      requires Away(se) && to_run !in charge && to_run !in se.my_rq && to_run.m_se == se
      modifies se`my_rq
      ensures Away(se) && se.my_rq == old(se.my_rq) + [to_run] && Pids(se.my_rq) == old(Pids(se.my_rq)) + [to_run.m_pid]
    {
      se.my_rq := se.my_rq + [to_run];
    }

    // The thread is queued again, moved, or dropped; its steps are added to the vruntime later.
    method SettleTask(to_run: ThreadContext, se: SchedEntity, ghost off: set<RBNode>, ghost w: F.Work)
      requires Queued(off) && Booked(book, m_rbtree.Queue()) && Away(se) && to_run !in charge && to_run !in se.my_rq
      requires to_run.m_se == se
      requires m_num_tasks <= F.MAX_PROCESSES && w.queue == View(book, m_rbtree.Queue())
      requires w.ent.id == se.id && w.ent.vruntime == se.vruntime
      requires m_next_se != null ==>
        m_next_se !in book && m_next_se.my_rq == [] && m_next_se.vruntime == se.vruntime && m_next_se != se
      requires m_next_se != null ==>
        rc == F.ThreadExit && m_rbtree.m_mpool.m_num_blocks_allocd < m_rbtree.m_mpool.m_num_blocks_total
      modifies this`m_num_tasks, this`m_next_se, this`book, this`charge, se`my_rq, to_run`m_se
      modifies (if m_next_se == null then {} else {m_next_se})`my_rq
      modifies m_rbtree, m_rbtree.store.Keys, m_rbtree.m_mpool, m_rbtree.m_mpool.link
      ensures Queued(off) && Booked(book, m_rbtree.Queue()) && Away(se) && m_next_se == null
      ensures m_num_tasks <= F.MAX_PROCESSES
      ensures WorkOf(se) == F.Settle(w, to_run.m_pid, old(SliceOf(se, 0)))
      ensures forall th :: th in se.my_rq ==> th in old(se.my_rq) || th == to_run
      ensures book.Keys <= old(book).Keys + {old(m_next_se)} && charge.Keys <= old(charge).Keys + {to_run}
      ensures fresh(m_rbtree.store.Keys - old(m_rbtree.store.Keys))
    {
      hide Queued, Booked, View, F.InsertEnt, Distinct;
      if rc == F.Success {
        PutBack(to_run, se);
      } else if m_next_se != null {
        assert rc == F.ThreadExit;
        MoveOut(to_run, off);
      } else {
        m_num_tasks := m_num_tasks - 1;
      }
    }

    // The entity se, whose node is off the tree, has its turn.
    ghost predicate Running(se: SchedEntity, off: set<RBNode>)
      reads this`book, this`charge, book.Keys, charge.Keys, this`m_num_tasks, this`m_next_se, se, se.my_rq
      reads m_rbtree, m_rbtree.store.Keys, m_rbtree.m_mpool, m_rbtree.m_mpool.link
    {
      Queued(off) && Away(se) && m_num_tasks <= F.MAX_PROCESSES && m_next_se == null
    }

    // The steps of a thread are charged to its entity.
    method AddTime(se: SchedEntity, j: nat, ghost off: set<RBNode>)
      requires Running(se, off) && Booked(book, m_rbtree.Queue())
      modifies se`vruntime
      ensures Running(se, off) && se.my_rq == old(se.my_rq)
      ensures var w := old(WorkOf(se)); WorkOf(se) == w.(ent := w.ent.(vruntime := w.ent.vruntime + j))
    {
      hide Queued, Booked, View;
      se.vruntime := se.vruntime + j;
    }

    // The first thread of the entity runs for its share of the slice.
    method RunTask(o: F.Future, se: SchedEntity, perTask: nat, ghost off: set<RBNode>)
      requires Running(se, off) && se.my_rq != []
      requires |F.RunTask(o, WorkOf(se), perTask).queue| + |off| <= m_rbtree.m_mpool.m_num_blocks_total
      modifies this`m_num_tasks, this`rc, this`pos, this`m_next_se, this`book, this`charge
      modifies se, (set th | th in se.my_rq)
      modifies m_rbtree, m_rbtree.store.Keys, m_rbtree.m_mpool, m_rbtree.m_mpool.link
      ensures Running(se, off) && WorkOf(se) == F.RunTask(o, old(WorkOf(se)), perTask)
      ensures A.ThreadRan(o, old(WorkOf(se)), WorkOf(se), perTask)
      ensures forall th :: th in se.my_rq ==> th in old(se.my_rq) || fresh(th)
      ensures forall x :: x in book ==> x in old(book) || fresh(x)
      ensures forall th :: th in charge ==> th in old(charge) || th in old(se.my_rq)
      ensures fresh(m_rbtree.store.Keys - old(m_rbtree.store.Keys))
    {
      hide RBTree.Valid, Holding, QueueOk, Mirrors, View, F.Exec, A.ThreadRan;
      OneBlockEach(off);
      QueueBooked(book, charge, m_rbtree.Queue());
      ghost var w := WorkOf(se);
      A.ThreadRuns(o, w, perTask);
      var to_run, j := RunFirst(o, se, perTask);
      SettleTask(to_run, se, off, w);
      AddTime(se, j, off);
    }

    // Between two turns.
    ghost predicate Ready()
      reads this`book, this`charge, book.Keys, charge.Keys, this`m_num_tasks, this`m_next_se
      reads m_rbtree, m_rbtree.store.Keys, m_rbtree.m_mpool, m_rbtree.m_mpool.link
    {
      Queued({}) && m_num_tasks <= F.MAX_PROCESSES && m_next_se == null
    }

    ghost function StateOf(): F.State
      requires Booked(book, m_rbtree.Queue())
      reads this`book, this`m_num_tasks, this`rc, this`pos, m_rbtree`tree
    {
      F.State(View(book, m_rbtree.Queue()), m_num_tasks, rc, pos)
    }

    // The leftmost node comes off the tree and keeps its block for now; the entities do not change.
    method RemoveEntity() returns (node: RBNode)
      requires m_rbtree.Valid() && Mirrors() && Holding({}) && m_rbtree.Queue() != []
      modifies m_rbtree, m_rbtree.store.Keys
      ensures m_rbtree.Valid() && Mirrors() && Holding({node})
      ensures node == old(m_rbtree.Queue())[0] && m_rbtree.Queue() == old(m_rbtree.Queue())[1..]
      ensures m_rbtree.store.Keys <= old(m_rbtree.store).Keys
    {
      hide RBTree.TreeValid, RBTree.PoolValid;
      var leftmost := m_rbtree.RemoveLeftmostNode();
      node := leftmost;
    }

    // The book without the entity at the front of the queue.
    ghost method Leave(se: SchedEntity, q: seq<RBNode>)
      requires Mirrors() && QueueOk(book, charge, q) && q != [] && q[0].m_val == se
      modifies this`book, this`charge
      ensures Mirrors() && QueueOk(book, charge, q[1..]) && Away(se)
      ensures se in old(book) && Booked(old(book), q) && Booked(book, q[1..]) && book.Keys <= old(book).Keys
      ensures View(book, q[1..]) == View(old(book), q)[1..]
      ensures View(old(book), q)[0] == F.Ent(se.id, se.vruntime, Pids(se.my_rq))
      ensures charge.Keys <= old(charge).Keys && forall th :: th in se.my_rq ==> th in old(charge)
    {
      BookRemove(book, charge, q);
      hide QueueOk, View;
      book, charge := book - {se}, Uncharged(charge, book[se].rq);
    }

    // The leftmost entity comes off the queue.
    method TakeLeftmost() returns (node: RBNode)
      requires Ready() && m_rbtree.Queue() != []
      modifies this`book, this`charge, m_rbtree, m_rbtree.store.Keys
      ensures Running(node.m_val, {node})
      ensures node.m_val in old(book) && m_rbtree.store.Keys <= old(m_rbtree.store).Keys
      ensures book.Keys <= old(book).Keys && charge.Keys <= old(charge).Keys
      ensures forall th :: th in node.m_val.my_rq ==> th in old(charge)
      ensures var st := old(StateOf());
        WorkOf(node.m_val) == F.Work(st.queue[0], st.queue[1..], st.numTasks, st.rc, st.pos)
    {
      hide RBTree.Valid, Holding, Mirrors, QueueOk, View, OwnThreads;
      ghost var q := m_rbtree.Queue();
      node := RemoveEntity();
      Leave(node.m_val, q);
    }

    // Each thread the entity has at the start of its turn runs once.
    method RunTasks(o: F.Future, se: SchedEntity, perTask: nat, num_tasks: nat, ghost off: set<RBNode>)
      requires Running(se, off) && num_tasks <= |se.my_rq|
      requires |F.RunTasks(o, WorkOf(se), perTask, num_tasks).queue| + |off| <= m_rbtree.m_mpool.m_num_blocks_total
      modifies this`m_num_tasks, this`rc, this`pos, this`m_next_se, this`book, this`charge
      modifies se, (set th | th in se.my_rq)
      modifies m_rbtree, m_rbtree.store.Keys, m_rbtree.m_mpool, m_rbtree.m_mpool.link
      ensures Running(se, off) && WorkOf(se) == F.RunTasks(o, old(WorkOf(se)), perTask, num_tasks)
      ensures forall th :: th in se.my_rq ==> th in old(se.my_rq) || fresh(th)
      ensures forall x :: x in book ==> x in old(book) || fresh(x)
      ensures forall th :: th in charge ==> th in old(charge) || th in old(se.my_rq) || fresh(th)
      ensures fresh(m_rbtree.store.Keys - old(m_rbtree.store.Keys))
    {
      hide RBTree.Valid, Holding, Mirrors, Away, View, F.RunTask;
      ghost var w := WorkOf(se);
      var y := 0;
      while y < num_tasks
        invariant 0 <= y <= num_tasks && Running(se, off)
        invariant num_tasks - y <= |se.my_rq|
        invariant F.RunTasks(o, WorkOf(se), perTask, num_tasks - y) == F.RunTasks(o, w, perTask, num_tasks)
        invariant forall th :: th in se.my_rq ==> th in old(se.my_rq) || fresh(th)
        invariant forall x :: x in book ==> x in old(book) || fresh(x)
        invariant forall th :: th in charge ==> th in old(charge) || th in old(se.my_rq) || fresh(th)
        invariant fresh(m_rbtree.store.Keys - old(m_rbtree.store.Keys))
      {
        F.TaskOn(o, WorkOf(se), perTask);
        F.QueueGrows(o, F.RunTask(o, WorkOf(se), perTask), perTask, num_tasks - y - 1);
        assert forall th :: th in se.my_rq ==> th in old(se.my_rq) || fresh(th);
        assert forall n :: n in m_rbtree.store.Keys ==> n in old(m_rbtree.store.Keys) || fresh(n);
        RunTask(o, se, perTask, off);
        y := y + 1;
      }
    }

    // The node's block goes back to the pool.
    method FreeNode(node: RBNode)
      requires Queued({node})
      modifies m_rbtree, m_rbtree.m_mpool, m_rbtree.m_mpool.link
      ensures Queued({}) && m_rbtree.Queue() == old(m_rbtree.Queue()) && m_rbtree.store == old(m_rbtree.store)
      ensures m_rbtree.m_mpool.m_num_blocks_allocd == |m_rbtree.Queue()|
    {
      hide RBTree.TreeValid, RBTree.PoolValid, QueueOk, Mirrors;
      m_rbtree.DeleteNode(node);
      assert m_rbtree.held == m_rbtree.store.Keys;
      OneBlockEach({});
    }

    // The entity's node is deleted; if it has threads left it is queued again.
    method FinishTurn(se: SchedEntity, node: RBNode)
      requires Running(se, {node})
      requires |WorkOf(se).queue| < m_rbtree.m_mpool.m_num_blocks_total
      modifies this`book, this`charge, m_rbtree, m_rbtree.store.Keys, m_rbtree.m_mpool, m_rbtree.m_mpool.link
      ensures Ready()
      ensures var w := old(WorkOf(se));
        StateOf()
          == F.State(if w.ent.tasks == [] then w.queue else F.InsertEnt(w.queue, w.ent), w.numTasks, w.rc, w.pos)
      ensures book.Keys <= old(book).Keys + {se} && charge.Keys <= old(charge).Keys + (set th | th in se.my_rq)
      ensures fresh(m_rbtree.store.Keys - old(m_rbtree.store.Keys))
    {
      hide RBTree.Valid, Holding, QueueOk, View, Mirrors, F.InsertEnt;
      QueueBooked(book, charge, m_rbtree.Queue());
      FreeNode(node);
      if |se.my_rq| != 0 {
        Requeue(se, {});
      }
    }

    /** One turn of the run loop: the queue becomes what the model of a turn says, whatever the
        threads do, as long as the pool has a block for every entity there is. */
    method RunTurn(o: F.Future, slice_per_entity: nat)
      requires Ready() && m_rbtree.Queue() != []
      requires |F.Ran(o, StateOf(), slice_per_entity).queue| < m_rbtree.m_mpool.m_num_blocks_total
      modifies this`m_num_tasks, this`rc, this`pos, this`m_next_se, this`book, this`charge, book.Keys, charge.Keys
      modifies m_rbtree, m_rbtree.store.Keys, m_rbtree.m_mpool, m_rbtree.m_mpool.link
      ensures Ready() && StateOf() == F.Turn(o, old(StateOf()), slice_per_entity)
      ensures A.RanInOrder(o, old(StateOf()), StateOf(), slice_per_entity)
      ensures forall x :: x in book ==> x in old(book) || fresh(x)
      ensures forall th :: th in charge ==> th in old(charge) || fresh(th)
      ensures fresh(m_rbtree.store.Keys - old(m_rbtree.store.Keys))
    {
      hide RBTree.Valid, Holding, QueueOk, Mirrors, Away, View, F.RunTasks, F.InsertEnt, A.RanInOrder;
      QueueBooked(book, charge, m_rbtree.Queue());
      ghost var st := StateOf();
      A.TurnInOrder(o, st, slice_per_entity);
      var node := TakeLeftmost();
      var se := node.m_val;
      var num_tasks := |se.my_rq|;
      var slice_per_task := if num_tasks == 0 then 0 else slice_per_entity / num_tasks;
      RunTasks(o, se, slice_per_task, num_tasks, {node});
      FinishTurn(se, node);
    }

    /** The run loop, for as many turns as asked or until no entity is left. */
    method Run(o: F.Future, turns: nat)
      requires Ready() && m_rbtree.Queue() != []
      requires F.Fits(o, StateOf().(rc := F.Success), Share(m_sched_period, |m_rbtree.Queue()|), turns,
        m_rbtree.m_mpool.m_num_blocks_total)
      modifies this`m_num_tasks, this`rc, this`pos, this`m_next_se, this`book, this`charge, book.Keys, charge.Keys
      modifies m_rbtree, m_rbtree.store.Keys, m_rbtree.m_mpool, m_rbtree.m_mpool.link
      ensures Ready() && StateOf()
           == F.Turns(o, old(StateOf()).(rc := F.Success), Share(m_sched_period, old(|m_rbtree.Queue()|)), turns)
    {
      hide RBTree.Valid, Holding, QueueOk, Mirrors, View, Share, F.Turn, F.Ran;
      OneBlockEach({});
      QueueBooked(book, charge, m_rbtree.Queue());
      rc := F.Success;
      var slice_per_entity := Share(m_sched_period, m_rbtree.m_size);
      ghost var st, total := StateOf(), m_rbtree.m_mpool.m_num_blocks_total;
      var cycles := 0;
      while cycles < turns && m_rbtree.m_size > 0
        invariant cycles <= turns && Ready() && Booked(book, m_rbtree.Queue()) && m_rbtree.m_size == |m_rbtree.Queue()|
        invariant F.Turns(o, StateOf(), slice_per_entity, turns - cycles) == F.Turns(o, st, slice_per_entity, turns)
        invariant F.Fits(o, StateOf(), slice_per_entity, turns - cycles, total)
        invariant forall x :: x in book ==> x in old(book) || fresh(x)
        invariant forall th :: th in charge ==> th in old(charge) || fresh(th)
        invariant fresh(m_rbtree.store.Keys - old(m_rbtree.store.Keys))
      {
        RunTurn(o, slice_per_entity);
        OneBlockEach({});
        QueueBooked(book, charge, m_rbtree.Queue());
        cycles := cycles + 1;
      }
    }

    /** The program starts with one entity that has one thread. */
    method Launch(id: nat, pid: nat)
      requires Ready() && m_rbtree.Queue() == [] && m_num_tasks == 0
      requires 0 < m_rbtree.m_mpool.m_num_blocks_total
      modifies this`m_num_tasks, this`book, this`charge
      modifies m_rbtree, m_rbtree.store.Keys, m_rbtree.m_mpool, m_rbtree.m_mpool.link
      ensures Ready() && StateOf() == F.State([F.Ent(id, 0, [pid])], 1, rc, pos)
      ensures F.Fair(StateOf(), m_sched_period)
      ensures forall x :: x in book ==> x in old(book) || fresh(x)
      ensures forall th :: th in charge ==> th in old(charge) || fresh(th)
      ensures fresh(m_rbtree.store.Keys - old(m_rbtree.store.Keys))
    {
      hide RBTree.Valid, Holding, QueueOk, Mirrors, F.Fair, F.InsertEnt, View;
      OneBlockEach({});
      QueueBooked(book, charge, m_rbtree.Queue());
      F.InsertFirst(View(book, m_rbtree.Queue()), F.Ent(id, 0, [pid]));
      var se := new SchedEntity(id, 0);
      var ctx := new ThreadContext(pid, se);
      ScheduleThread(ctx, {});
      m_num_tasks := m_num_tasks + 1;
      F.StartIsFair(id, pid, rc, pos, m_sched_period);
    }

    /** Every live thread sits in exactly one place of exactly one queue, that of the entity it
        is charged to. */
    lemma EachThreadOnce(i: nat, k: nat, j: nat, l: nat)
      requires Ready() && i < |m_rbtree.Queue()| && j < |m_rbtree.Queue()|
      requires k < |m_rbtree.Queue()[i].m_val.my_rq| && l < |m_rbtree.Queue()[j].m_val.my_rq|
      requires m_rbtree.Queue()[i].m_val.my_rq[k] == m_rbtree.Queue()[j].m_val.my_rq[l]
      ensures i == j && k == l && m_rbtree.Queue()[i].m_val.my_rq[k].m_se == m_rbtree.Queue()[i].m_val
    {
      hide RBTree.TreeValid, RBTree.PoolValid;
      var a, b := m_rbtree.Queue()[i].m_val, m_rbtree.Queue()[j].m_val;
      var th := a.my_rq[k];
      assert book[a] == Rq(a.vruntime, a.my_rq) && book[b] == Rq(b.vruntime, b.my_rq);
      assert th in book[a].rq && th in book[b].rq;
      assert charge[th] == a && charge[th] == b;
    }
  }

  /** The program: one entity with one thread, and then the run loop. After any number of turns
      the vruntimes lie within one slice, which is the whole period, of the smallest; the tasks
      are counted right and at most 30; every step taken has been paid for once, but for those that
      exited, faulted or got an entity; queue, tree and pool are valid. */
  method RunProgram(o: F.Future, period: nat, heap: nat, heap_size: nat, id: nat, pid: nat, turns: nat)
    returns (scheduler: CFSScheduler)
    requires MemoryPool.HEADER_SIZE + MemoryPool.INIT_STEP * MemoryPool.BLOCK_SIZE <= heap_size
    requires F.Fits(o, F.State([F.Ent(id, 0, [pid])], 1, F.Success, 0), period, turns,
                    (heap_size - MemoryPool.HEADER_SIZE) / MemoryPool.BLOCK_SIZE)
    ensures scheduler.Ready() && F.Fair(scheduler.StateOf(), period)
    ensures scheduler.StateOf() == F.Turns(o, F.State([F.Ent(id, 0, [pid])], 1, F.Success, 0), period, turns)
    ensures var st, p := F.State([F.Ent(id, 0, [pid])], 1, F.Success, 0), scheduler.pos;
      A.Charged(o, st, period, turns) + A.Created(o, st, period, turns)
        == |set i: nat | i < p && !o(i).Exit? && !o(i).Crash?|
    ensures scheduler.m_rbtree.m_mpool.m_num_blocks_allocd == |scheduler.m_rbtree.Queue()|
  {
    hide RBTree.Valid, F.Fair, F.Fits, F.Turns, View, A.Charged, A.Created;
    scheduler := new CFSScheduler(period, heap, heap_size);
    assert 10 <= scheduler.m_rbtree.m_mpool.m_num_blocks_total;
    scheduler.Launch(id, pid);
    F.StartIsFair(id, pid, F.Success, 0, period);
    OneEntity(scheduler, id, pid);
    scheduler.Run(o, turns);
    F.RunIsFair(o, F.State([F.Ent(id, 0, [pid])], 1, F.Success, 0), period, turns);
    A.RunCharged(o, F.State([F.Ent(id, 0, [pid])], 1, F.Success, 0), period, turns);
    assert A.Worked(o, 0, scheduler.pos) == set i: nat | i < scheduler.pos && !o(i).Exit? && !o(i).Crash?;
    scheduler.OneBlockEach({});
  }

  lemma OneEntity(scheduler: CFSScheduler, id: nat, pid: nat)
    requires scheduler.Ready() && scheduler.StateOf().queue == [F.Ent(id, 0, [pid])]
    ensures |scheduler.m_rbtree.Queue()| == 1 && Share(scheduler.m_sched_period, 1) == scheduler.m_sched_period
  {
    assert |scheduler.StateOf().queue| == 1;
  }
}
