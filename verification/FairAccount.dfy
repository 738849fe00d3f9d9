/** What a turn of the scheduler does and charges for, read off the threads' future by position:
    where each thread stops, what it leaves behind, and how many steps its entity pays for. */
module FairAccount {
  import opened Wrappers
  import opened FairQueue

  // ---------- One thread ----------

  // With `size` entities queued: an exit, a fault or a granted setsid ends the run of a thread.
  predicate Ends(out: Outcome, size: nat) {
    out.Exit? || out.Crash? || (out.SetSid? && size < MAX_PROCESSES - 1)
  }

  // The result code that a step leaves.
  function Code(out: Outcome, size: nat): Status {
    if out.Crash? then Fault
    else if Ends(out, size) then ThreadExit
    else if out.Error? then OtherError
    else Success
  }

  // The threads that the steps from one position to another ask for, in order.
  function Asked(o: Future, from: nat, to: nat): seq<nat>
    decreases to - from
  {
    if to <= from then []
    else (if o(from).Split? then [o(from).pid] else []) + Asked(o, from + 1, to)
  }

  // The first of them, as many as there is room for.
  function Roomed(asked: seq<nat>, numTasks: int): seq<nat> {
    var room := if numTasks < MAX_PROCESSES then MAX_PROCESSES - numTasks else 0;
    asked[..if |asked| <= room then |asked| else room]
  }

  // The run of a thread from position p to p' ended in its last step.
  predicate EndedAt(o: Future, p: nat, p': nat, size: nat) {
    p < p' && Ends(o(p' - 1), size)
  }

  // It stopped at the first step that ends it, or after all its steps.
  ghost predicate RanTo(o: Future, p: nat, p': nat, size: nat, perTask: nat) {
    && p <= p' <= p + perTask
    && (forall i: nat :: p <= i < p' - 1 ==> !Ends(o(i), size))
    && (p' == p + perTask || EndedAt(o, p, p', size))
  }

  // The queue with a new entity in front of the first one whose vruntime is not smaller.
  ghost predicate Joined(q: seq<Ent>, q': seq<Ent>, e: Ent) {
    exists i: nat :: i <= |q| && q' == q[..i] + [e] + q[i..] && (i < |q| ==> e.vruntime <= q[i].vruntime)
      && forall j :: 0 <= j < i ==> q[j].vruntime < e.vruntime
  }

  /** The first thread of the entity ran. It stopped at the first step that ended it, or after
      its share; its entity pays for every step but the one that ended it; the threads that it
      split off and, if its last result was success, itself wait at the end of the entity's
      queue; a granted setsid moves it to a new entity that starts at the old one's vruntime. */
  ghost predicate ThreadRan(o: Future, w: Work, w': Work, perTask: nat) {
    w.ent.tasks != [] && (
      var t, size := w.ent.tasks[0], |w.queue|;
      var ended := EndedAt(o, w.pos, w'.pos, size);
      var moved := ended && o(w'.pos - 1).SetSid?;
      var children := Roomed(Asked(o, w.pos, w'.pos), w.numTasks);
      && RanTo(o, w.pos, w'.pos, size, perTask)
      && w'.rc == (if w.pos < w'.pos then Code(o(w'.pos - 1), size) else w.rc)
      && w'.ent.id == w.ent.id
      && w'.ent.vruntime == w.ent.vruntime + (w'.pos - w.pos) - (if ended then 1 else 0)
      && w'.ent.tasks == w.ent.tasks[1..] + children + (if w'.rc == Success then [t] else [])
      && w'.numTasks == w.numTasks + |children| - (if w'.rc == Success || moved then 0 else 1)
      && (if moved then Joined(w.queue, w'.queue, Ent(o(w'.pos - 1).id, w.ent.vruntime, [t]))
          else w'.queue == w.queue))
  }

  lemma {:induction false} ExecEnds(o: Future, s: Slice, size: nat, left: nat)
    requires s.next.None?
    ensures var r := Exec(o, s, size, left);
      && RanTo(o, s.pos, r.pos, size, left)
      && r.rc == (if s.pos < r.pos then Code(o(r.pos - 1), size) else s.rc)
      && r.j == s.j + (r.pos - s.pos) - (if EndedAt(o, s.pos, r.pos, size) then 1 else 0)
      && r.next == (if EndedAt(o, s.pos, r.pos, size) && o(r.pos - 1).SetSid? then Some(o(r.pos - 1).id) else None)
    decreases left
  {
    if left > 0 {
      var t := Step(s, o(s.pos), size);
      if !Stops(t.rc) {
        ExecEnds(o, t, size, left - 1);
      }
    }
  }

  lemma {:induction false} ExecAsks(o: Future, s: Slice, size: nat, left: nat)
    ensures var r := Exec(o, s, size, left);
      && s.pos <= r.pos && r.rq == s.rq + Roomed(Asked(o, s.pos, r.pos), s.numTasks)
      && r.numTasks - s.numTasks == |r.rq| - |s.rq|
    decreases left
  {
    hide Asked, Roomed;
    if left > 0 {
      var t := Step(s, o(s.pos), size);
      if Stops(t.rc) {
        NothingAsked(o, s.pos);
        NothingAsked(o, t.pos);
        AskedFirst(o, s.pos, t.pos);
      } else {
        ExecAsks(o, t, size, left - 1);
        var r := Exec(o, t, size, left - 1);
        AskedFirst(o, s.pos, r.pos);
        if o(s.pos).Split? {
          RoomedFirst(o(s.pos).pid, Asked(o, t.pos, r.pos), s.numTasks);
        }
      }
    } else {
      NothingAsked(o, s.pos);
    }
  }

  lemma NothingAsked(o: Future, p: nat)
    ensures Asked(o, p, p) == [] && forall n: int :: Roomed([], n) == []
  {
  }

  // The first one asked for finds room, or none of them does.
  lemma RoomedFirst(pid: nat, rest: seq<nat>, numTasks: int)
    ensures Roomed([pid] + rest, numTasks)
         == if numTasks < MAX_PROCESSES then [pid] + Roomed(rest, numTasks + 1) else Roomed(rest, numTasks)
  {
  }

  lemma AskedFirst(o: Future, from: nat, to: nat)
    requires from < to
    ensures Asked(o, from, to)
         == if o(from).Split? then [o(from).pid] + Asked(o, from + 1, to) else Asked(o, from + 1, to)
  {
  }

  // What the run of the thread comes to, with its entity settled afterwards.
  lemma SettledRan(o: Future, w: Work, s: Slice, perTask: nat)
    requires w.ent.tasks != [] && RanTo(o, w.pos, s.pos, |w.queue|, perTask)
    requires s.rc == if w.pos < s.pos then Code(o(s.pos - 1), |w.queue|) else w.rc
    requires s.j == (s.pos - w.pos) - if EndedAt(o, w.pos, s.pos, |w.queue|) then 1 else 0
    requires s.next
          == if EndedAt(o, w.pos, s.pos, |w.queue|) && o(s.pos - 1).SetSid? then Some(o(s.pos - 1).id) else None
    requires s.rq == w.ent.tasks[1..] + Roomed(Asked(o, w.pos, s.pos), w.numTasks)
    requires s.numTasks - w.numTasks == |Roomed(Asked(o, w.pos, s.pos), w.numTasks)|
    ensures ThreadRan(o, w, Settle(w, w.ent.tasks[0], s), perTask)
  {
    hide RanTo, Asked, Roomed, Joined, InsertEnt;
    if s.next.Some? {
      InsertJoins(w.queue, Ent(s.next.value, w.ent.vruntime, [w.ent.tasks[0]]));
    }
  }

  /** The run of a thread does all of this. */
  lemma ThreadRuns(o: Future, w: Work, perTask: nat)
    requires w.ent.tasks != []
    ensures ThreadRan(o, w, RunTask(o, w, perTask), perTask)
  {
    hide Exec, RanTo, EndedAt, Asked, Roomed, ThreadRan, Settle;
    var s := Slice(w.ent.tasks[1..], w.numTasks, w.rc, w.pos, None, 0);
    ExecEnds(o, s, |w.queue|, perTask);
    ExecAsks(o, s, |w.queue|, perTask);
    SettledRan(o, w, Exec(o, s, |w.queue|, perTask), perTask);
  }

  lemma InsertJoins(q: seq<Ent>, e: Ent)
    ensures Joined(q, InsertEnt(q, e), e)
  {
    var i := InsertPos(q, e.vruntime);
    assert i <= |q| && InsertEnt(q, e) == q[..i] + [e] + q[i..];
  }

  // ---------- One turn ----------

  /** The turn of the first entity: each of its threads runs once, in order, for the slice divided
      by how many there are; then it joins the queue again, or goes with its last thread. */
  ghost predicate TurnRan(o: Future, st: State, st': State, slice: nat, log: seq<Work>) {
    st.queue != [] && st.queue[0].tasks != [] && (
      var n := |st.queue[0].tasks|;
      && |log| == n + 1
      && log[0] == Work(st.queue[0], st.queue[1..], st.numTasks, st.rc, st.pos)
      && (forall k :: 0 <= k < n ==> ThreadRan(o, log[k], log[k + 1], slice / n))
      && (if log[n].ent.tasks == [] then st'.queue == log[n].queue
          else Joined(log[n].queue, st'.queue, log[n].ent))
      && (st'.numTasks, st'.rc, st'.pos) == (log[n].numTasks, log[n].rc, log[n].pos))
  }

  lemma {:induction false} ThreadsRun(o: Future, w: Work, perTask: nat, n: nat) returns (log: seq<Work>)
    requires n <= |w.ent.tasks|
    ensures |log| == n + 1 && log[0] == w && log[n] == RunTasks(o, w, perTask, n)
    ensures forall k :: 0 <= k < n ==> ThreadRan(o, log[k], log[k + 1], perTask)
    decreases n
  {
    hide ThreadRan, RunTask;
    log := [w];
    if n > 0 {
      ThreadRuns(o, w, perTask);
      TaskOn(o, w, perTask);
      var rest := ThreadsRun(o, RunTask(o, w, perTask), perTask, n - 1);
      log := [w] + rest;
    }
  }

  lemma TurnRuns(o: Future, st: State, slice: nat) returns (log: seq<Work>)
    requires st.queue != [] && st.queue[0].tasks != []
    ensures TurnRan(o, st, Turn(o, st, slice), slice, log) && log[|log| - 1] == Ran(o, st, slice)
  {
    hide ThreadRan, RunTasks, Joined, InsertEnt;
    var e := st.queue[0];
    log := ThreadsRun(o, Work(e, st.queue[1..], st.numTasks, st.rc, st.pos), slice / |e.tasks|, |e.tasks|);
    var w := Ran(o, st, slice);
    InsertJoins(w.queue, w.ent);
  }

  // The turn of an entity that has threads.
  ghost predicate RanInOrder(o: Future, st: State, st': State, slice: nat) {
    st.queue != [] && st.queue[0].tasks != [] ==> exists log :: TurnRan(o, st, st', slice, log)
  }

  lemma TurnInOrder(o: Future, st: State, slice: nat)
    requires st.queue != []
    ensures RanInOrder(o, st, Turn(o, st, slice), slice)
  {
    hide TurnRan, Turn;
    if st.queue[0].tasks != [] {
      var log := TurnRuns(o, st, slice);
    }
  }

  // ---------- Counting ----------

  // The steps in a stretch that do not take the thread away, and those that ask for an entity.
  ghost function Worked(o: Future, from: nat, to: nat): set<nat> {
    set i: nat | from <= i < to && !o(i).Exit? && !o(i).Crash?
  }

  ghost function Sids(o: Future, from: nat, to: nat): set<nat> {
    set i: nat | from <= i < to && o(i).SetSid?
  }

  // How many of those are granted with `size` entities queued.
  function Granted(asks: nat, size: nat): nat {
    if MAX_PROCESSES - 1 <= size then 0
    else if asks <= MAX_PROCESSES - 1 - size then asks else MAX_PROCESSES - 1 - size
  }

  lemma Stretches(o: Future, a: nat, b: nat, c: nat)
    requires a <= b <= c
    ensures |Worked(o, a, c)| == |Worked(o, a, b)| + |Worked(o, b, c)|
    ensures |Sids(o, a, c)| == |Sids(o, a, b)| + |Sids(o, b, c)|
  {
    assert Worked(o, a, c) == Worked(o, a, b) + Worked(o, b, c);
    assert Sids(o, a, c) == Sids(o, a, b) + Sids(o, b, c);
  }

  lemma {:induction false} AllWorked(o: Future, a: nat, b: nat)
    requires a <= b && forall i: nat :: a <= i < b ==> !o(i).Exit? && !o(i).Crash?
    ensures |Worked(o, a, b)| == b - a
    decreases b - a
  {
    if a == b {
      assert Worked(o, a, b) == {};
    } else {
      AllWorked(o, a, b - 1);
      Stretches(o, a, b - 1, b);
      assert Worked(o, b - 1, b) == {b - 1};
    }
  }

  lemma NoSteps(o: Future, a: nat)
    ensures |Worked(o, a, a)| == 0 && |Sids(o, a, a)| == 0
  {
    assert Worked(o, a, a) == {} && Sids(o, a, a) == {};
  }

  // What one step adds to the counts.
  lemma OneStep(o: Future, i: nat)
    ensures |Worked(o, i, i + 1)| == (if o(i).Exit? || o(i).Crash? then 0 else 1)
    ensures |Sids(o, i, i + 1)| == (if o(i).SetSid? then 1 else 0)
  {
    assert Worked(o, i, i + 1) == (if o(i).Exit? || o(i).Crash? then {} else {i});
    assert Sids(o, i, i + 1) == (if o(i).SetSid? then {i} else {});
  }

  lemma ThreadCharged(o: Future, w: Work, w': Work, perTask: nat)
    requires ThreadRan(o, w, w', perTask)
    ensures w.pos <= w'.pos && |w.queue| <= |w'.queue|
    ensures |w'.queue| - |w.queue| == Granted(|Sids(o, w.pos, w'.pos)|, |w.queue|)
    ensures w'.ent.vruntime + |w'.queue| - |w.queue| == w.ent.vruntime + |Worked(o, w.pos, w'.pos)|
  {
    hide Asked, Roomed;
    var p, p', size := w.pos, w'.pos, |w.queue|;
    if p < p' {
      AllWorked(o, p, p' - 1);
      Stretches(o, p, p' - 1, p');
      OneStep(o, p' - 1);
      if size < MAX_PROCESSES - 1 {
        assert Sids(o, p, p' - 1) == {};
      }
    } else {
      NoSteps(o, p);
    }
  }

  lemma {:induction false} ThreadsCharged(o: Future, w: Work, perTask: nat, n: nat)
    requires n <= |w.ent.tasks|
    ensures var w' := RunTasks(o, w, perTask, n);
      && w.pos <= w'.pos && |w.queue| <= |w'.queue|
      && |w'.queue| - |w.queue| == Granted(|Sids(o, w.pos, w'.pos)|, |w.queue|)
      && w'.ent.vruntime + |w'.queue| - |w.queue| == w.ent.vruntime + |Worked(o, w.pos, w'.pos)|
    decreases n
  {
    hide ThreadRan, RunTask, Worked, Sids;
    if n > 0 {
      var w1 := RunTask(o, w, perTask);
      ThreadRuns(o, w, perTask);
      ThreadCharged(o, w, w1, perTask);
      TaskOn(o, w, perTask);
      ThreadsCharged(o, w1, perTask, n - 1);
      Stretches(o, w.pos, w1.pos, RunTasks(o, w, perTask, n).pos);
    } else {
      NoSteps(o, w.pos);
    }
  }

  /** A turn: the entity's vruntime grows by the steps that neither exited nor faulted, less those
      that were granted an entity; and as many setsids are granted as there is room for. */
  lemma TurnCharged(o: Future, st: State, slice: nat)
    requires st.queue != []
    ensures var w, others := Ran(o, st, slice), |st.queue| - 1;
      && st.pos <= w.pos == Turn(o, st, slice).pos && others <= |w.queue|
      && |w.queue| - others == Granted(|Sids(o, st.pos, w.pos)|, others)
      && w.ent.vruntime == st.queue[0].vruntime + |Worked(o, st.pos, w.pos)| - (|w.queue| - others)
  {
    hide RunTasks, Granted, Worked, Sids;
    var e := st.queue[0];
    var perTask := if e.tasks == [] then 0 else slice / |e.tasks|;
    ThreadsCharged(o, Work(e, st.queue[1..], st.numTasks, st.rc, st.pos), perTask, |e.tasks|);
  }

  /** In a quiet turn it grows by exactly the steps that neither exited nor faulted. */
  lemma QuietTurnCharged(o: Future, st: State, slice: nat)
    requires st.queue != [] && Quiet(o, st.pos, Turn(o, st, slice).pos)
    ensures var w := Ran(o, st, slice);
      && st.pos <= w.pos && |w.queue| == |st.queue| - 1
      && w.ent.vruntime
         == st.queue[0].vruntime + |set i: nat | st.pos <= i < w.pos && !o(i).Exit? && !o(i).Crash?|
  {
    hide RunTasks;
    TurnCharged(o, st, slice);
    var w := Ran(o, st, slice);
    assert Sids(o, st.pos, w.pos) == {};
    assert Worked(o, st.pos, w.pos) == set i: nat | st.pos <= i < w.pos && !o(i).Exit? && !o(i).Crash?;
  }

  lemma {:induction false} ThreadsUninterrupted(o: Future, w: Work, perTask: nat, n: nat)
    requires n <= |w.ent.tasks| && Uninterrupted(o, w.pos, RunTasks(o, w, perTask, n).pos)
    ensures var w' := RunTasks(o, w, perTask, n); w'.pos == w.pos + n * perTask && w'.queue == w.queue
    decreases n
  {
    hide ThreadRan, RunTask, Uninterrupted;
    if n > 0 {
      var w1, w' := RunTask(o, w, perTask), RunTasks(o, w, perTask, n);
      ThreadRuns(o, w, perTask);
      TaskOn(o, w, perTask);
      TasksOn(o, w1, perTask, n - 1);
      UninterruptedParts(o, w.pos, w1.pos, w'.pos);
      ThreadUninterrupted(o, w, w1, perTask);
      ThreadsUninterrupted(o, w1, perTask, n - 1);
      assert n * perTask == perTask + (n - 1) * perTask;
    }
  }

  // In this stretch no thread exits, faults or asks for an entity.
  ghost predicate Uninterrupted(o: Future, from: nat, to: nat) {
    forall i: nat :: from <= i < to ==> !o(i).Exit? && !o(i).Crash? && !o(i).SetSid?
  }

  lemma UninterruptedParts(o: Future, a: nat, b: nat, c: nat)
    requires a <= b <= c && Uninterrupted(o, a, c)
    ensures Uninterrupted(o, a, b) && Uninterrupted(o, b, c)
  {
  }

  lemma ThreadUninterrupted(o: Future, w: Work, w': Work, perTask: nat)
    requires ThreadRan(o, w, w', perTask) && Uninterrupted(o, w.pos, w'.pos)
    ensures w'.pos == w.pos + perTask && w'.queue == w.queue
  {
  }

  lemma {:induction false} ThreadsAtMost(o: Future, w: Work, perTask: nat, n: nat)
    requires n <= |w.ent.tasks|
    ensures w.pos <= RunTasks(o, w, perTask, n).pos <= w.pos + n * perTask
    decreases n
  {
    hide ThreadRan, RunTask;
    if n > 0 {
      var w1 := RunTask(o, w, perTask);
      ThreadRuns(o, w, perTask);
      assert w.pos <= w1.pos <= w.pos + perTask by { ThreadAtMost(o, w, w1, perTask); }
      TaskOn(o, w, perTask);
      ThreadsAtMost(o, w1, perTask, n - 1);
      assert n * perTask == perTask + (n - 1) * perTask;
    }
  }

  lemma ThreadAtMost(o: Future, w: Work, w': Work, perTask: nat)
    requires ThreadRan(o, w, w', perTask)
    ensures w.pos <= w'.pos <= w.pos + perTask
  {
  }

  // The slice divided among the threads of the entity that is next.
  function TurnSteps(st: State, slice: nat): nat {
    if st.queue == [] || st.queue[0].tasks == [] then 0
    else |st.queue[0].tasks| * (slice / |st.queue[0].tasks|)
  }

  lemma TurnAtMost(o: Future, st: State, slice: nat)
    requires st.queue != []
    ensures st.pos <= Turn(o, st, slice).pos <= st.pos + TurnSteps(st, slice) <= st.pos + slice
  {
    hide RunTasks;
    var e := st.queue[0];
    var perTask := if e.tasks == [] then 0 else slice / |e.tasks|;
    ThreadsAtMost(o, Work(e, st.queue[1..], st.numTasks, st.rc, st.pos), perTask, |e.tasks|);
    if e.tasks != [] {
      Shares(slice, |e.tasks|);
      AllowanceIs(perTask, |e.tasks|);
    }
  }

  /** n threads that are not interrupted use n * (slice / n) steps, and their entity pays for all. */
  lemma TurnUninterrupted(o: Future, st: State, slice: nat)
    requires st.queue != [] && Uninterrupted(o, st.pos, st.pos + TurnSteps(st, slice))
    ensures Turn(o, st, slice).pos == st.pos + TurnSteps(st, slice)
    ensures var w := Ran(o, st, slice);
      w.queue == st.queue[1..] && w.ent.vruntime == st.queue[0].vruntime + TurnSteps(st, slice)
  {
    hide RunTasks, Uninterrupted;
    var e := st.queue[0];
    var perTask := if e.tasks == [] then 0 else slice / |e.tasks|;
    TurnAtMost(o, st, slice);
    UninterruptedParts(o, st.pos, Turn(o, st, slice).pos, st.pos + TurnSteps(st, slice));
    ThreadsUninterrupted(o, Work(e, st.queue[1..], st.numTasks, st.rc, st.pos), perTask, |e.tasks|);
    TurnCharged(o, st, slice);
    AllSteps(o, st.pos, Turn(o, st, slice).pos);
  }

  lemma AllSteps(o: Future, a: nat, b: nat)
    requires a <= b && Uninterrupted(o, a, b)
    ensures |Worked(o, a, b)| == b - a && |Sids(o, a, b)| == 0
  {
    AllWorked(o, a, b);
    assert Sids(o, a, b) == {};
  }

  // ---------- Whole runs ----------

  // What the entities that ran in m turns were charged, taken together.
  ghost function Charged(o: Future, st: State, slice: nat, m: nat): int
    decreases m
  {
    if m == 0 || st.queue == [] then 0
    else Ran(o, st, slice).ent.vruntime - st.queue[0].vruntime + Charged(o, Turn(o, st, slice), slice, m - 1)
  }

  // How many entities came to be queued beside those there were.
  ghost function Created(o: Future, st: State, slice: nat, m: nat): int
    decreases m
  {
    if m == 0 || st.queue == [] then 0
    else |Ran(o, st, slice).queue| - (|st.queue| - 1) + Created(o, Turn(o, st, slice), slice, m - 1)
  }

  /** Over any number of turns every step is paid for once, but for those that exit or fault and
      those that got an entity. */
  lemma {:induction false} RunCharged(o: Future, st: State, slice: nat, m: nat)
    ensures st.pos <= Turns(o, st, slice, m).pos
    ensures Charged(o, st, slice, m) + Created(o, st, slice, m) == |Worked(o, st.pos, Turns(o, st, slice, m).pos)|
    decreases m
  {
    hide Turn, Ran, Worked, Sids, Granted;
    if m > 0 && st.queue != [] {
      var st1 := Turn(o, st, slice);
      TurnCharged(o, st, slice);
      RunCharged(o, st1, slice, m - 1);
      Stretches(o, st.pos, st1.pos, Turns(o, st1, slice, m - 1).pos);
    } else {
      NoSteps(o, st.pos);
    }
  }

  /** In a quiet stretch of turns no entity is created, and every step is paid for once but for
      those that exit or fault. */
  lemma QuietRunCharged(o: Future, st: State, slice: nat, m: nat)
    requires Quiet(o, st.pos, Turns(o, st, slice, m).pos)
    ensures Created(o, st, slice, m) == 0
    ensures var p' := Turns(o, st, slice, m).pos;
      Charged(o, st, slice, m) == |set i: nat | st.pos <= i < p' && !o(i).Exit? && !o(i).Crash?|
  {
    hide Turns, Charged, Created, Quiet;
    var p' := Turns(o, st, slice, m).pos;
    RunCharged(o, st, slice, m);
    NoneCreated(o, st, slice, m);
    assert Worked(o, st.pos, p') == set i: nat | st.pos <= i < p' && !o(i).Exit? && !o(i).Crash?;
  }

  lemma {:induction false} NoneCreated(o: Future, st: State, slice: nat, m: nat)
    requires Quiet(o, st.pos, Turns(o, st, slice, m).pos)
    ensures Created(o, st, slice, m) == 0
    decreases m
  {
    hide Turn, Ran, Quiet;
    if m > 0 && st.queue != [] {
      QuietNext(o, st, slice, m);
      QuietTurnCharged(o, st, slice);
      NoneCreated(o, Turn(o, st, slice), slice, m - 1);
    }
  }

  /** Every turn of a run is the turn of its first entity, with each of its threads run in order. */
  lemma {:induction false} RunRuns(o: Future, st: State, slice: nat, k: nat) returns (log: seq<Work>)
    requires Fair(st, slice) && Turns(o, st, slice, k).queue != []
    ensures TurnRan(o, Turns(o, st, slice, k), Turns(o, st, slice, k + 1), slice, log)
    decreases k
  {
    hide Turn, Fair, TurnRan;
    if k == 0 {
      FirstBusy(st, slice);
      OneTurn(o, st, slice);
      log := TurnRuns(o, st, slice);
    } else {
      TurnKeepsFair(o, st, slice);
      log := RunRuns(o, Turn(o, st, slice), slice, k - 1);
    }
  }

  lemma FirstBusy(st: State, slice: nat)
    requires Fair(st, slice) && st.queue != []
    ensures st.queue[0].tasks != []
  {
  }

  lemma OneTurn(o: Future, st: State, slice: nat)
    requires st.queue != []
    ensures Turns(o, st, slice, 0) == st && Turns(o, st, slice, 1) == Turn(o, st, slice)
  {
  }

  // The first of these turns is not interrupted, and neither are the others.
  lemma UninterruptedNext(o: Future, st: State, slice: nat, m: nat)
    requires st.queue != [] && 0 < m && Uninterrupted(o, st.pos, st.pos + Allowance(slice, m))
    ensures Uninterrupted(o, st.pos, st.pos + TurnSteps(st, slice))
    ensures var p := Turn(o, st, slice).pos; Uninterrupted(o, p, p + Allowance(slice, m - 1))
  {
    hide Turn, TurnSteps;
    TurnAtMost(o, st, slice);
  }

  /** While no thread is interrupted (m slices are the most that m turns take), every turn of the
      run takes n * (slice / n) steps, for the n threads of the entity that is first, and charges
      them to it. */
  lemma {:induction false} RunUninterrupted(o: Future, st: State, slice: nat, m: nat, k: nat)
    requires k < m && Uninterrupted(o, st.pos, st.pos + Allowance(slice, m))
    ensures var s, s' := Turns(o, st, slice, k), Turns(o, st, slice, k + 1);
      s.queue != [] ==>
        && s'.pos == s.pos + TurnSteps(s, slice)
        && Ran(o, s, slice).queue == s.queue[1..]
        && Ran(o, s, slice).ent.vruntime == s.queue[0].vruntime + TurnSteps(s, slice)
    decreases k
  {
    hide Turn, Ran, TurnSteps, Uninterrupted;
    if st.queue != [] {
      UninterruptedNext(o, st, slice, m);
      OneTurn(o, st, slice);
      if k == 0 {
        TurnUninterrupted(o, st, slice);
      } else {
        RunUninterrupted(o, Turn(o, st, slice), slice, m - 1, k - 1);
      }
    }
  }
}
