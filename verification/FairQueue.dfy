/** What the completely-fair scheduler does to its queue, as a function of the queue and of
    what the threads do; and the guarantees this gives over whole runs. */
module FairQueue {
  import opened Wrappers

  const MAX_PROCESSES: nat := 30

  // Result codes of one step of a thread.
  datatype Status = Success | ThreadExit | Fault | OtherError

  // What a thread does when it is switched to.
  datatype Outcome = Fine | Split(pid: nat) | SetSid(id: nat) | Exit | Crash | Error

  // A thread's future: what step number i of the machine will do.
  type Future = nat -> Outcome

  // A scheduling entity and its queue of threads.
  datatype Ent = Ent(id: nat, vruntime: nat, tasks: seq<nat>)

  // The scheduler between two turns: the last result code is kept across turns.
  datatype State = State(queue: seq<Ent>, numTasks: int, rc: Status, pos: nat)

  // The run of one thread: steps completed, threads queued behind it, entity asked for.
  datatype Slice = Slice(rq: seq<nat>, numTasks: int, rc: Status, pos: nat, next: Option<nat>, j: nat)

  // The run of one entity, off the queue.
  datatype Work = Work(ent: Ent, queue: seq<Ent>, numTasks: int, rc: Status, pos: nat)

  // ---------- One turn ----------

  // An entity goes in front of the first one whose vruntime is not smaller.
  function InsertPos(q: seq<Ent>, v: nat): (i: nat)
    ensures i <= |q|
    ensures forall j :: 0 <= j < i ==> q[j].vruntime < v
    ensures i < |q| ==> v <= q[i].vruntime
  {
    if q == [] || q[0].vruntime >= v then 0 else 1 + InsertPos(q[1..], v)
  }

  function InsertEnt(q: seq<Ent>, e: Ent): seq<Ent> {
    var i := InsertPos(q, e.vruntime);
    q[..i] + [e] + q[i..]
  }

  lemma InsertFirst(q: seq<Ent>, e: Ent)
    requires q == []
    ensures InsertEnt(q, e) == [e]
  {
  }

  function Step(s: Slice, out: Outcome, size: nat): (r: Slice) {
    var t := s.(pos := s.pos + 1);
    match out
    case Split(p) =>
      if s.numTasks < MAX_PROCESSES
      then t.(rq := s.rq + [p], numTasks := s.numTasks + 1, rc := Success, j := s.j + 1)
      else t.(rc := Success, j := s.j + 1)
    case SetSid(id) =>
      if size >= MAX_PROCESSES - 1 then t.(rc := Success, j := s.j + 1) else t.(rc := ThreadExit, next := Some(id))
    case Fine => t.(rc := Success, j := s.j + 1)
    case Error => t.(rc := OtherError, j := s.j + 1)
    case Exit => t.(rc := ThreadExit)
    case Crash => t.(rc := Fault)
  }

  predicate Stops(rc: Status) { rc == ThreadExit || rc == Fault }

  // At most `left` steps of one thread, with `size` entities queued.
  function Exec(o: Future, s: Slice, size: nat, left: nat): Slice
    decreases left
  {
    if left == 0 then s
    else
      var t := Step(s, o(s.pos), size);
      if Stops(t.rc) then t else Exec(o, t, size, left - 1)
  }

  // The first thread of the entity runs and is queued again, moved to an entity of its own, or dropped.
  function RunTask(o: Future, w: Work, perTask: nat): Work
    requires w.ent.tasks != []
  {
    var t := w.ent.tasks[0];
    var s := Exec(o, Slice(w.ent.tasks[1..], w.numTasks, w.rc, w.pos, None, 0), |w.queue|, perTask);
    Settle(w, t, s)
  }

  function Settle(w: Work, t: nat, s: Slice): Work {
    var alive := s.rc == Success;
    var moves := !alive && s.next.Some?;
    Work(Ent(w.ent.id, w.ent.vruntime + s.j, if alive then s.rq + [t] else s.rq),
         if moves then InsertEnt(w.queue, Ent(s.next.value, w.ent.vruntime, [t])) else w.queue,
         if alive || moves then s.numTasks else s.numTasks - 1, s.rc, s.pos)
  }

  lemma {:induction false} ExecGrows(o: Future, s: Slice, size: nat, left: nat)
    ensures var r := Exec(o, s, size, left);
      && |s.rq| <= |r.rq| && r.numTasks - s.numTasks == |r.rq| - |s.rq|
      && s.numTasks <= r.numTasks && (s.numTasks <= MAX_PROCESSES ==> r.numTasks <= MAX_PROCESSES)
      && s.j <= r.j <= s.j + left && (0 < left && !Stops(r.rc) ==> r.j == s.j + left)
      && (0 < left && |s.rq| < |r.rq| ==> s.j < r.j)
    decreases left
  {
    if left > 0 {
      var t := Step(s, o(s.pos), size);
      if !Stops(t.rc) {
        ExecGrows(o, t, size, left - 1);
      }
    }
  }

  function RunTasks(o: Future, w: Work, perTask: nat, n: nat): Work
    requires n <= |w.ent.tasks|
    decreases n
  {
    if n == 0 then w
    else
      ExecGrows(o, Slice(w.ent.tasks[1..], w.numTasks, w.rc, w.pos, None, 0), |w.queue|, perTask);
      RunTasks(o, RunTask(o, w, perTask), perTask, n - 1)
  }

  // The leftmost entity runs each of its threads for its share of the slice.
  function Ran(o: Future, st: State, slice: nat): Work
    requires st.queue != []
  {
    var e := st.queue[0];
    var perTask := if e.tasks == [] then 0 else slice / |e.tasks|;
    RunTasks(o, Work(e, st.queue[1..], st.numTasks, st.rc, st.pos), perTask, |e.tasks|)
  }

  function Turn(o: Future, st: State, slice: nat): State
    requires st.queue != []
  {
    var w := Ran(o, st, slice);
    State(if w.ent.tasks == [] then w.queue else InsertEnt(w.queue, w.ent), w.numTasks, w.rc, w.pos)
  }

  // The run stops when no entity is left.
  function Turns(o: Future, st: State, slice: nat, m: nat): State
    decreases m
  {
    if m == 0 || st.queue == [] then st else Turns(o, Turn(o, st, slice), slice, m - 1)
  }

  // ---------- Conservation ----------

  function Total(q: seq<Ent>): nat {
    if q == [] then 0 else |q[0].tasks| + Total(q[1..])
  }

  lemma {:induction false} TotalSplit(a: seq<Ent>, b: seq<Ent>)
    ensures Total(a + b) == Total(a) + Total(b)
  {
    if a == [] {
      assert a + b == b;
    } else {
      assert (a + b)[1..] == a[1..] + b;
      TotalSplit(a[1..], b);
    }
  }

  lemma TotalInsert(q: seq<Ent>, e: Ent)
    ensures Total(InsertEnt(q, e)) == Total(q) + |e.tasks|
  {
    var i := InsertPos(q, e.vruntime);
    TotalSplit(q[..i] + [e], q[i..]);
    TotalSplit(q[..i], [e]);
    TotalSplit(q[..i], q[i..]);
    assert q == q[..i] + q[i..];
  }

  // ---------- The invariant ----------

  ghost predicate Sorted(q: seq<Ent>) {
    forall i, j :: 0 <= i < j < |q| ==> q[i].vruntime <= q[j].vruntime
  }

  ghost predicate Within(q: seq<Ent>, lo: nat, hi: nat) {
    forall i :: 0 <= i < |q| ==> lo <= q[i].vruntime <= hi
  }

  ghost predicate Busy(q: seq<Ent>) {
    forall i :: 0 <= i < |q| ==> q[i].tasks != []
  }

  /** At the head of the run loop: the queue is sorted, the vruntimes lie within one slice
      of the smallest one, no entity is idle, and the number of tasks is right and bounded. */
  ghost predicate Fair(st: State, slice: nat) {
    true == (
      && Sorted(st.queue) && Busy(st.queue)
      && (st.queue != [] ==> Within(st.queue, st.queue[0].vruntime, st.queue[0].vruntime + slice))
      && st.numTasks == Total(st.queue) <= MAX_PROCESSES)
  }

  lemma StartIsFair(id: nat, pid: nat, rc: Status, pos: nat, slice: nat)
    ensures Fair(State([Ent(id, 0, [pid])], 1, rc, pos), slice)
  {
    assert Total([Ent(id, 0, [pid])]) == 1 + Total([]);
  }

  // While an entity runs that started at lo.
  ghost predicate Running(w: Work, lo: nat, hi: nat) {
    && Sorted(w.queue) && Busy(w.queue) && Within(w.queue, lo, hi)
    && w.numTasks == Total(w.queue) + |w.ent.tasks| <= MAX_PROCESSES
    && lo <= w.ent.vruntime
  }

  lemma InsertKeeps(q: seq<Ent>, e: Ent, lo: nat, hi: nat)
    requires Sorted(q) && Busy(q) && Within(q, lo, hi) && e.tasks != [] && lo <= e.vruntime <= hi
    ensures var r := InsertEnt(q, e); Sorted(r) && Busy(r) && Within(r, lo, hi) && |r| == |q| + 1
  {
  }

  lemma TaskKeeps(o: Future, w: Work, perTask: nat, lo: nat, hi: nat)
    requires Running(w, lo, hi) && w.ent.tasks != [] && w.ent.vruntime <= hi
    ensures var w' := RunTask(o, w, perTask);
      && Running(w', lo, hi) && w.ent.vruntime <= w'.ent.vruntime <= w.ent.vruntime + perTask
      && |w'.ent.tasks| >= |w.ent.tasks| - 1
  {
    var s0 := Slice(w.ent.tasks[1..], w.numTasks, w.rc, w.pos, None, 0);
    ExecGrows(o, s0, |w.queue|, perTask);
    var s := Exec(o, s0, |w.queue|, perTask);
    if s.next.Some? {
      var e := Ent(s.next.value, w.ent.vruntime, [w.ent.tasks[0]]);
      InsertKeeps(w.queue, e, lo, hi);
      TotalInsert(w.queue, e);
    }
  }

  // What n tasks may add to the vruntime.
  function Allowance(perTask: nat, n: nat): nat {
    if n == 0 then 0 else perTask + Allowance(perTask, n - 1)
  }

  lemma {:induction false} TasksKeep(o: Future, w: Work, perTask: nat, n: nat, lo: nat, hi: nat)
    requires Running(w, lo, hi) && n <= |w.ent.tasks| && w.ent.vruntime + Allowance(perTask, n) <= hi
    ensures var w' := RunTasks(o, w, perTask, n);
      Running(w', lo, hi) && w.ent.vruntime <= w'.ent.vruntime <= w.ent.vruntime + Allowance(perTask, n)
    decreases n
  {
    hide Running, RunTask;
    if n > 0 {
      TaskKeeps(o, w, perTask, lo, hi);
      TasksKeep(o, RunTask(o, w, perTask), perTask, n - 1, lo, hi);
    }
  }

  // The leftmost entity has run.
  lemma RanKeeps(o: Future, st: State, slice: nat)
    requires Fair(st, slice) && st.queue != []
    ensures var w, lo := Ran(o, st, slice), st.queue[0].vruntime;
      Running(w, lo, lo + slice) && w.ent.vruntime <= lo + slice
  {
    hide RunTasks;
    var e, q := st.queue[0], st.queue[1..];
    var n := |e.tasks|;
    Shares(slice, n);
    TasksKeep(o, Work(e, q, st.numTasks, st.rc, st.pos), slice / n, n, e.vruntime, e.vruntime + slice);
  }

  // And is queued again, or dropped with its last thread.
  lemma RequeueKeeps(w: Work, lo: nat, hi: nat)
    requires Running(w, lo, hi) && w.ent.vruntime <= hi
    ensures var q := if w.ent.tasks == [] then w.queue else InsertEnt(w.queue, w.ent);
      Sorted(q) && Busy(q) && Within(q, lo, hi) && w.numTasks == Total(q)
  {
    hide InsertEnt;
    if w.ent.tasks != [] {
      InsertKeeps(w.queue, w.ent, lo, hi);
      TotalInsert(w.queue, w.ent);
    }
  }

  lemma FairAgain(st: State, slice: nat, lo: nat)
    requires Sorted(st.queue) && Busy(st.queue) && Within(st.queue, lo, lo + slice)
    requires st.numTasks == Total(st.queue) <= MAX_PROCESSES
    ensures Fair(st, slice) && (st.queue != [] ==> lo <= st.queue[0].vruntime)
  {
    hide Total, Busy;
  }

  /** One turn keeps the invariant, and the smallest vruntime does not decrease. */
  lemma TurnKeepsFair(o: Future, st: State, slice: nat)
    requires Fair(st, slice) && st.queue != []
    ensures var st' := Turn(o, st, slice);
      Fair(st', slice) && (st'.queue != [] ==> st.queue[0].vruntime <= st'.queue[0].vruntime)
  {
    hide Ran, Fair, InsertEnt, Total, Busy, Sorted, Within;
    var lo := st.queue[0].vruntime;
    RanKeeps(o, st, slice);
    RequeueKeeps(Ran(o, st, slice), lo, lo + slice);
    FairAgain(Turn(o, st, slice), slice, lo);
  }

  lemma Shares(slice: nat, n: nat)
    requires n > 0
    ensures Allowance(slice / n, n) <= slice
  {
    AllowanceIs(slice / n, n);
  }

  lemma {:induction false} AllowanceIs(perTask: nat, n: nat)
    ensures Allowance(perTask, n) == n * perTask
  {
    if n > 0 { AllowanceIs(perTask, n - 1); }
  }

  /** Bounded unfairness over whole runs, whatever the threads do: at every head of the run
      loop the spread is at most one slice and the smallest vruntime has not decreased. */
  lemma {:induction false} RunIsFair(o: Future, st: State, slice: nat, m: nat)
    requires Fair(st, slice)
    ensures var st' := Turns(o, st, slice, m);
      && Fair(st', slice)
      && (st'.queue != [] ==> st.queue != [] && st.queue[0].vruntime <= st'.queue[0].vruntime)
    decreases m
  {
    hide Turn, Fair;
    if m > 0 && st.queue != [] {
      TurnKeepsFair(o, st, slice);
      RunIsFair(o, Turn(o, st, slice), slice, m - 1);
    }
  }

  // ---------- No starvation ----------

  // In this stretch nobody asks for an entity of its own.
  ghost predicate Quiet(o: Future, from: nat, to: nat) {
    forall i: nat :: from <= i < to ==> !o(i).SetSid?
  }

  // In the next turns every entity that gets its turn has at least one step for each of its threads.
  ghost predicate Roomy(o: Future, st: State, slice: nat, turns: nat) {
    forall m: nat :: m <= turns ==> var s := Turns(o, st, slice, m); s.queue != [] ==> |s.queue[0].tasks| <= slice
  }

  lemma {:induction false} ExecOn(o: Future, s: Slice, size: nat, left: nat)
    ensures s.pos <= Exec(o, s, size, left).pos
    decreases left
  {
    if left > 0 {
      var t := Step(s, o(s.pos), size);
      if !Stops(t.rc) {
        ExecOn(o, t, size, left - 1);
      }
    }
  }

  lemma TaskOn(o: Future, w: Work, perTask: nat)
    requires w.ent.tasks != []
    ensures w.pos <= RunTask(o, w, perTask).pos && |w.ent.tasks| - 1 <= |RunTask(o, w, perTask).ent.tasks|
  {
    var s := Slice(w.ent.tasks[1..], w.numTasks, w.rc, w.pos, None, 0);
    ExecGrows(o, s, |w.queue|, perTask);
    ExecOn(o, s, |w.queue|, perTask);
  }

  lemma {:induction false} TasksOn(o: Future, w: Work, perTask: nat, n: nat)
    requires n <= |w.ent.tasks|
    ensures w.pos <= RunTasks(o, w, perTask, n).pos
    decreases n
  {
    hide RunTask;
    if n > 0 {
      TaskOn(o, w, perTask);
      TasksOn(o, RunTask(o, w, perTask), perTask, n - 1);
    }
  }

  lemma TurnOn(o: Future, st: State, slice: nat)
    requires st.queue != []
    ensures st.pos <= Turn(o, st, slice).pos
  {
    var e := st.queue[0];
    var perTask := if e.tasks == [] then 0 else slice / |e.tasks|;
    TasksOn(o, Work(e, st.queue[1..], st.numTasks, st.rc, st.pos), perTask, |e.tasks|);
  }

  lemma {:induction false} TurnsOn(o: Future, st: State, slice: nat, m: nat)
    ensures st.pos <= Turns(o, st, slice, m).pos
    decreases m
  {
    hide Turn;
    if m > 0 && st.queue != [] {
      TurnOn(o, st, slice);
      TurnsOn(o, Turn(o, st, slice), slice, m - 1);
    }
  }

  lemma {:induction false} ExecQuiet(o: Future, s: Slice, size: nat, left: nat)
    requires Quiet(o, s.pos, Exec(o, s, size, left).pos) && s.next.None?
    ensures Exec(o, s, size, left).next.None?
    decreases left
  {
    if left > 0 {
      var t := Step(s, o(s.pos), size);
      ExecOn(o, s, size, left);
      if !Stops(t.rc) {
        ExecOn(o, t, size, left - 1);
        ExecQuiet(o, t, size, left - 1);
      }
    }
  }

  lemma TaskQuiet(o: Future, w: Work, perTask: nat)
    requires w.ent.tasks != [] && 1 <= perTask && Quiet(o, w.pos, RunTask(o, w, perTask).pos)
    ensures var w' := RunTask(o, w, perTask);
      && w'.queue == w.queue && |w.ent.tasks| - 1 <= |w'.ent.tasks|
      && w.ent.vruntime <= w'.ent.vruntime
      && (w.ent.vruntime < w'.ent.vruntime || |w'.ent.tasks| == |w.ent.tasks| - 1)
  {
    var s0 := Slice(w.ent.tasks[1..], w.numTasks, w.rc, w.pos, None, 0);
    ExecGrows(o, s0, |w.queue|, perTask);
    ExecQuiet(o, s0, |w.queue|, perTask);
  }

  // The others keep their places, and an entity that survives its turn has moved on.
  lemma {:induction false} TasksQuiet(o: Future, w: Work, perTask: nat, n: nat)
    requires n <= |w.ent.tasks| && 1 <= perTask && Quiet(o, w.pos, RunTasks(o, w, perTask, n).pos)
    ensures var w' := RunTasks(o, w, perTask, n);
      && w'.queue == w.queue && w.ent.vruntime <= w'.ent.vruntime
      && (w.ent.vruntime < w'.ent.vruntime || |w'.ent.tasks| == |w.ent.tasks| - n)
    decreases n
  {
    hide RunTask, Quiet;
    if n > 0 {
      var w1 := RunTask(o, w, perTask);
      TaskOn(o, w, perTask);
      TasksOn(o, w1, perTask, n - 1);
      QuietParts(o, w.pos, w1.pos, RunTasks(o, w, perTask, n).pos);
      TaskQuiet(o, w, perTask);
      TasksQuiet(o, w1, perTask, n - 1);
    }
  }

  lemma QuietParts(o: Future, from: nat, mid: nat, to: nat)
    requires Quiet(o, from, to) && from <= mid <= to
    ensures Quiet(o, from, mid) && Quiet(o, mid, to)
  {
  }

  // Where the entity at place k > 0 stands after the turn of the one at place 0.
  function NextIndex(o: Future, st: State, slice: nat, k: nat): nat
    requires 0 < k < |st.queue|
  {
    var w := Ran(o, st, slice);
    if w.ent.tasks == [] || k - 1 < InsertPos(w.queue, w.ent.vruntime) then k - 1 else k
  }

  // The place of the entity after m turns, none of which was its own.
  function IndexAfter(o: Future, st: State, slice: nat, k: nat, m: nat): Option<nat>
    decreases m
  {
    if |st.queue| <= k then None
    else if m == 0 then Some(k)
    else if k == 0 then None
    else IndexAfter(o, Turn(o, st, slice), slice, NextIndex(o, st, slice, k), m - 1)
  }

  // How many vruntime units the entities of q may still use at or below v.
  function Lag(e: Ent, v: nat): nat {
    if e.vruntime <= v then v + 1 - e.vruntime else 0
  }

  function Ahead(q: seq<Ent>, v: nat): nat {
    if q == [] then 0 else Lag(q[0], v) + Ahead(q[1..], v)
  }

  lemma {:induction false} AheadSplit(a: seq<Ent>, b: seq<Ent>, v: nat)
    ensures Ahead(a + b, v) == Ahead(a, v) + Ahead(b, v)
  {
    if a == [] {
      assert a + b == b;
    } else {
      assert (a + b)[1..] == a[1..] + b;
      AheadSplit(a[1..], b, v);
    }
  }

  lemma AheadInsert(q: seq<Ent>, e: Ent, v: nat)
    ensures Ahead(InsertEnt(q, e), v) == Ahead(q, v) + Lag(e, v)
  {
    var i := InsertPos(q, e.vruntime);
    AheadSplit(q[..i] + [e], q[i..], v);
    AheadSplit(q[..i], [e], v);
    AheadSplit(q[..i], q[i..], v);
    assert q == q[..i] + q[i..];
  }

  lemma {:induction false} AheadBound(q: seq<Ent>, v: nat, slice: nat)
    requires forall i :: 0 <= i < |q| ==> v <= q[i].vruntime + slice
    ensures Ahead(q, v) <= |q| * (slice + 1)
  {
    if q != [] {
      AheadBound(q[1..], v, slice);
      assert |q| * (slice + 1) == (slice + 1) + |q[1..]| * (slice + 1);
    }
  }

  // A turn of somebody else's moves the entity at place k nearer to its own.
  lemma TurnServes(o: Future, st: State, slice: nat, k: nat)
    requires Fair(st, slice) && 0 < k < |st.queue| && |st.queue[0].tasks| <= slice
    requires Quiet(o, st.pos, Turn(o, st, slice).pos)
    ensures var st', k' := Turn(o, st, slice), NextIndex(o, st, slice, k);
      && k' < |st'.queue| && st'.queue[k'] == st.queue[k]
      && Ahead(st'.queue, st.queue[k].vruntime) < Ahead(st.queue, st.queue[k].vruntime)
  {
    hide RunTasks;
    var e, q, v := st.queue[0], st.queue[1..], st.queue[k].vruntime;
    var n := |e.tasks|;
    assert e.tasks != [] && e.vruntime <= v;
    AtLeastOne(slice, n);
    TasksQuiet(o, Work(e, q, st.numTasks, st.rc, st.pos), slice / n, n);
    var w := Ran(o, st, slice);
    if w.ent.tasks != [] {
      AheadInsert(q, w.ent, v);
    }
  }

  lemma AtLeastOne(slice: nat, n: nat)
    requires 0 < n <= slice
    ensures 1 <= slice / n
  {
  }

  lemma RoomyNext(o: Future, st: State, slice: nat, turns: nat)
    requires Roomy(o, st, slice, turns) && st.queue != []
    ensures |st.queue[0].tasks| <= slice && (turns > 0 ==> Roomy(o, Turn(o, st, slice), slice, turns - 1))
  {
    assert Turns(o, st, slice, 0) == st;
    forall m: nat
      ensures Turns(o, Turn(o, st, slice), slice, m) == Turns(o, st, slice, m + 1)
    {
    }
  }

  // The first of these turns is quiet, and so are the others.
  lemma QuietNext(o: Future, st: State, slice: nat, turns: nat)
    requires st.queue != [] && turns > 0 && Quiet(o, st.pos, Turns(o, st, slice, turns).pos)
    ensures Quiet(o, st.pos, Turn(o, st, slice).pos)
    ensures var st' := Turn(o, st, slice); Quiet(o, st'.pos, Turns(o, st', slice, turns - 1).pos)
  {
    hide Turn, Quiet;
    TurnOn(o, st, slice);
    TurnsOn(o, Turn(o, st, slice), slice, turns - 1);
    QuietParts(o, st.pos, Turn(o, st, slice).pos, Turns(o, st, slice, turns).pos);
  }

  lemma {:induction false} Served(o: Future, st: State, slice: nat, k: nat, turns: nat) returns (m: nat)
    requires Fair(st, slice) && k < |st.queue| && Ahead(st.queue, st.queue[k].vruntime) <= turns + 1
    requires Roomy(o, st, slice, turns) && Quiet(o, st.pos, Turns(o, st, slice, turns).pos)
    ensures m <= turns
    ensures IndexAfter(o, st, slice, k, m) == Some(0)
    ensures var q := Turns(o, st, slice, m).queue; q != [] && q[0] == st.queue[k]
    decreases turns
  {
    hide Turn, Turns, Fair, Roomy, Quiet, NextIndex, IndexAfter, Ahead;
    if k == 0 {
      m := 0;
      FirstIsNext(o, st, slice);
    } else {
      TwoAhead(st, slice, k);
      RoomyNext(o, st, slice, turns);
      QuietNext(o, st, slice, turns);
      TurnServes(o, st, slice, k);
      TurnKeepsFair(o, st, slice);
      var m' := Served(o, Turn(o, st, slice), slice, NextIndex(o, st, slice, k), turns - 1);
      m := m' + 1;
      OneTurnMore(o, st, slice, k, m');
    }
  }

  // The first entity and the one at place k both still have a unit.
  lemma TwoAhead(st: State, slice: nat, k: nat)
    requires Fair(st, slice) && 0 < k < |st.queue|
    ensures 2 <= Ahead(st.queue, st.queue[k].vruntime)
  {
    AheadWithout(st.queue[1..], k - 1);
  }

  lemma FirstIsNext(o: Future, st: State, slice: nat)
    requires st.queue != []
    ensures IndexAfter(o, st, slice, 0, 0) == Some(0) && Turns(o, st, slice, 0) == st
    ensures 0 < Ahead(st.queue, st.queue[0].vruntime)
  {
    assert Lag(st.queue[0], st.queue[0].vruntime) == 1;
  }

  lemma OneTurnMore(o: Future, st: State, slice: nat, k: nat, m: nat)
    requires 0 < k < |st.queue|
    ensures Turns(o, st, slice, m + 1) == Turns(o, Turn(o, st, slice), slice, m)
    ensures IndexAfter(o, st, slice, k, m + 1)
         == IndexAfter(o, Turn(o, st, slice), slice, NextIndex(o, st, slice, k), m)
  {
    hide Turn, NextIndex;
  }

  /** No starvation: in a stretch of (number of other entities) * (slice + 1) turns in which
      nobody calls setsid and no entity has more threads than the slice has steps, every queued
      entity is picked, unchanged since. */
  lemma NoStarvation(o: Future, st: State, slice: nat, k: nat)
    requires Fair(st, slice) && k < |st.queue|
    requires var turns := (|st.queue| - 1) * (slice + 1);
      Roomy(o, st, slice, turns) && Quiet(o, st.pos, Turns(o, st, slice, turns).pos)
    ensures exists m: nat ::
      && m <= (|st.queue| - 1) * (slice + 1)
      && IndexAfter(o, st, slice, k, m) == Some(0)
      && Turns(o, st, slice, m).queue != [] && Turns(o, st, slice, m).queue[0] == st.queue[k]
  {
    hide Turns, IndexAfter, Roomy, Quiet;
    AheadAtMost(st.queue, k, slice);
    var m := Served(o, st, slice, k, (|st.queue| - 1) * (slice + 1));
  }

  lemma AheadWithout(q: seq<Ent>, k: nat)
    requires k < |q|
    ensures Ahead(q, q[k].vruntime) == Ahead(q[..k] + q[k + 1..], q[k].vruntime) + 1
  {
    var v := q[k].vruntime;
    AheadSplit(q[..k], q[k..], v);
    assert q == q[..k] + q[k..] && q[k..][1..] == q[k + 1..];
    AheadSplit(q[..k], q[k + 1..], v);
  }

  lemma AheadAtMost(q: seq<Ent>, k: nat, slice: nat)
    requires k < |q| && Sorted(q) && Within(q, q[0].vruntime, q[0].vruntime + slice)
    ensures Ahead(q, q[k].vruntime) <= (|q| - 1) * (slice + 1) + 1
  {
    var others := q[..k] + q[k + 1..];
    AheadWithout(q, k);
    AheadBound(others, q[k].vruntime, slice);
    assert |others| == |q| - 1;
  }

  lemma {:induction false} OneOfTotal(q: seq<Ent>, k: nat)
    requires k < |q|
    ensures |q[k].tasks| <= Total(q)
  {
    if k > 0 { OneOfTotal(q[1..], k - 1); }
  }

  /** With a slice of at least 30 steps there is always room, because there are never more
      than 30 threads. The program runs with a period of 30 and starts with one entity. */
  lemma AlwaysRoomy(o: Future, st: State, slice: nat, turns: nat)
    requires Fair(st, slice) && MAX_PROCESSES <= slice
    ensures Roomy(o, st, slice, turns)
  {
    forall m: nat
      ensures var s := Turns(o, st, slice, m); s.queue != [] ==> |s.queue[0].tasks| <= slice
    {
      RunIsFair(o, st, slice, m);
      var s := Turns(o, st, slice, m);
      if s.queue != [] {
        OneOfTotal(s.queue, 0);
      }
    }
  }

  // ---------- Room in the pool ----------

  // Every turn of the next m finds a free block for each entity that it queues.
  ghost predicate Fits(o: Future, st: State, slice: nat, m: nat, blocks: nat)
    decreases m
  {
    m > 0 && st.queue != [] ==>
      |Ran(o, st, slice).queue| < blocks && Fits(o, Turn(o, st, slice), slice, m - 1, blocks)
  }

  lemma {:induction false} AsksOnlyWithRoom(o: Future, s: Slice, size: nat, left: nat)
    requires s.next.None?
    ensures Exec(o, s, size, left).next.Some? ==> size < MAX_PROCESSES - 1
    decreases left
  {
    if left > 0 {
      var t := Step(s, o(s.pos), size);
      if !Stops(t.rc) {
        AsksOnlyWithRoom(o, t, size, left - 1);
      }
    }
  }

  lemma TaskBounded(o: Future, w: Work, perTask: nat)
    requires w.ent.tasks != [] && |w.queue| < MAX_PROCESSES
    ensures var w' := RunTask(o, w, perTask); |w'.queue| < MAX_PROCESSES && |w.ent.tasks| - 1 <= |w'.ent.tasks|
  {
    hide Exec;
    var s := Slice(w.ent.tasks[1..], w.numTasks, w.rc, w.pos, None, 0);
    ExecGrows(o, s, |w.queue|, perTask);
    AsksOnlyWithRoom(o, s, |w.queue|, perTask);
  }

  lemma {:induction false} QueueBounded(o: Future, w: Work, perTask: nat, n: nat)
    requires n <= |w.ent.tasks| && |w.queue| < MAX_PROCESSES
    ensures |RunTasks(o, w, perTask, n).queue| < MAX_PROCESSES
    decreases n
  {
    hide RunTask;
    if n > 0 {
      TaskBounded(o, w, perTask);
      QueueBounded(o, RunTask(o, w, perTask), perTask, n - 1);
    }
  }

  lemma {:induction false} BusyBound(q: seq<Ent>)
    requires Busy(q)
    ensures |q| <= Total(q)
  {
    if q != [] { BusyBound(q[1..]); }
  }

  /** A pool of 30 blocks is never exhausted, whatever the threads do: setsid is refused in time. */
  lemma {:induction false} ThirtyBlocksFit(o: Future, st: State, slice: nat, m: nat, blocks: nat)
    requires Fair(st, slice) && MAX_PROCESSES <= blocks
    ensures Fits(o, st, slice, m, blocks)
    decreases m
  {
    hide RunTasks;
    if m > 0 && st.queue != [] {
      var e := st.queue[0];
      var perTask := if e.tasks == [] then 0 else slice / |e.tasks|;
      BusyBound(st.queue);
      QueueBounded(o, Work(e, st.queue[1..], st.numTasks, st.rc, st.pos), perTask, |e.tasks|);
      TurnKeepsFair(o, st, slice);
      ThirtyBlocksFit(o, Turn(o, st, slice), slice, m - 1, blocks);
    }
  }

  // A thread that splits in each of its steps, as long as there may be more threads.
  lemma {:induction false} ExecSplits(o: Future, s: Slice, size: nat, left: nat)
    requires forall i: nat :: s.pos <= i < s.pos + left ==> o(i).Split?
    requires 1 <= s.numTasks <= MAX_PROCESSES && s.next.None?
    ensures var r := Exec(o, s, size, left);
      && r.pos == s.pos + left && r.next.None? && (0 < left ==> r.rc == Success)
      && |r.rq| - |s.rq| == (if left <= MAX_PROCESSES - s.numTasks then left else MAX_PROCESSES - s.numTasks)
    decreases left
  {
    if left > 0 {
      ExecSplits(o, Step(s, o(s.pos), size), size, left - 1);
    }
  }

  lemma LeavesOne(o: Future, w: Work, perTask: nat)
    requires (forall i: nat :: w.pos <= i ==> o(i).SetSid?) && w.ent.tasks != [] && 1 <= perTask
    requires |w.queue| < MAX_PROCESSES - 1
    ensures var w' := RunTask(o, w, perTask);
      |w'.queue| == |w.queue| + 1 && |w'.ent.tasks| == |w.ent.tasks| - 1 && w.pos <= w'.pos
  {
  }

  // Threads that all ask for an entity of their own until that is refused.
  lemma {:induction false} TasksLeave(o: Future, w: Work, perTask: nat, n: nat)
    requires (forall i: nat :: w.pos <= i ==> o(i).SetSid?) && n <= |w.ent.tasks| && 1 <= perTask
    requires |w.queue| + n == MAX_PROCESSES
    ensures |RunTasks(o, w, perTask, n).queue| >= MAX_PROCESSES - 1
    decreases n
  {
    hide RunTask;
    if |w.queue| < MAX_PROCESSES - 1 {
      LeavesOne(o, w, perTask);
      TasksLeave(o, RunTask(o, w, perTask), perTask, n - 1);
    } else {
      QueueGrows(o, w, perTask, n);
    }
  }

  lemma TaskGrows(o: Future, w: Work, perTask: nat)
    requires w.ent.tasks != []
    ensures |w.queue| <= |RunTask(o, w, perTask).queue|
  {
    hide Exec, InsertPos;
  }

  lemma {:induction false} QueueGrows(o: Future, w: Work, perTask: nat, n: nat)
    requires n <= |w.ent.tasks|
    ensures |w.queue| <= |RunTasks(o, w, perTask, n).queue|
    decreases n
  {
    hide RunTask;
    if n > 0 {
      TaskOn(o, w, perTask);
      TaskGrows(o, w, perTask);
      QueueGrows(o, RunTask(o, w, perTask), perTask, n - 1);
    }
  }

  /** And a smaller pool is not enough: the first thread can split until there are 30, which then
      all ask for entities of their own. */
  lemma ThirtyBlocksNeeded(id: nat, pid: nat, rc: Status, pos: nat, blocks: nat) returns (o: Future)
    requires blocks < MAX_PROCESSES
    ensures !Fits(o, State([Ent(id, 0, [pid])], 1, rc, pos), MAX_PROCESSES, 2, blocks)
  {
    hide Exec, RunTasks;
    o := (i: nat) => if i < pos + MAX_PROCESSES then Split(i) else SetSid(i);
    var st := State([Ent(id, 0, [pid])], 1, rc, pos);
    SplitsFirst(o, st, pid);
    var st1 := Turn(o, st, MAX_PROCESSES);
    var e := st1.queue[0];
    TasksLeave(o, Work(e, [], st1.numTasks, st1.rc, st1.pos), 1, MAX_PROCESSES);
    assert st1.queue[1..] == [] && MAX_PROCESSES / |e.tasks| == 1;
    assert |Ran(o, st1, MAX_PROCESSES).queue| >= blocks;
    assert !Fits(o, st1, MAX_PROCESSES, 1, blocks);
  }

  lemma SplitsFirst(o: Future, st: State, pid: nat)
    requires |st.queue| == 1 && st.queue[0].tasks == [pid] && st.numTasks == 1
    requires forall i: nat :: st.pos <= i < st.pos + MAX_PROCESSES ==> o(i).Split?
    ensures var st' := Turn(o, st, MAX_PROCESSES);
      |st'.queue| == 1 && |st'.queue[0].tasks| == MAX_PROCESSES && st'.pos == st.pos + MAX_PROCESSES
  {
    hide Exec;
    var w := Work(st.queue[0], st.queue[1..], st.numTasks, st.rc, st.pos);
    ExecSplits(o, Slice([], 1, st.rc, st.pos, None, 0), 0, MAX_PROCESSES);
    assert st.queue[0].tasks[1..] == [] && st.queue[1..] == [];
    assert RunTasks(o, w, MAX_PROCESSES, 1) == RunTask(o, w, MAX_PROCESSES);
  }
}
