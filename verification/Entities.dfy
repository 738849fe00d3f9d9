/** The scheduler's objects: a thread and the entity whose run queue it sits in. */
module Entities {

  class ThreadContext {
    const m_pid: nat
    // The entity this thread is charged to.
    var m_se: SchedEntity?

    constructor (pid: nat, se: SchedEntity?)
      ensures m_pid == pid && m_se == se
    {
      m_pid := pid;
      m_se := se;
    }
  }

  class SchedEntity {
    const id: nat
    // Completed steps so far; the key under which the entity is queued.
    var vruntime: nat
    var my_rq: seq<ThreadContext>

    constructor (id: nat, vruntime: nat)
      ensures this.id == id && this.vruntime == vruntime && my_rq == []
    {
      this.id := id;
      this.vruntime := vruntime;
      my_rq := [];
    }
  }
}
