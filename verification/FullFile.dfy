/** What happens when the file is full: a write after a fork can lose what was there. */
module FullFile {
  import opened AddressSpace
  import opened ByteSeq
  import opened CowFamily
  import opened CowLedger
  import opened CowMemory
  import opened CowModel
  import opened CowRun
  import opened MemoryRuns
  import opened Numbers
  import opened SeparateMemory
  import opened UserMemory
  import opened Wrappers

  // The file limit of the program.
  const MAX_SYSTEM_MEM: nat := 0x6400000

  // Regions of one length, each written to, until the file has no room for another.
  function FillOps(n: nat, used: nat, max: nat): (ops: seq<Op>)
    requires 0 < n
    ensures forall k :: 0 <= k < |ops| && (ops[k].WriteTo? || ops[k].ReadFrom?) ==> ops[k].start <= LOWER_BOUND + max
    decreases max - used
  {
    if used + n > max then []
    else [MapNew(0, 0, n, {Read, Write}), WriteTo(0, LOWER_BOUND + used, [7])] + FillOps(n, used + n, max)
  }

  // One process with regions from the lower bound on, none shared, all with a place in the file.
  ghost predicate Filled(st: State, n: nat, used: nat, max: nat) {
    && |st.mems| == 1 && FileOk(st.file) && st.file.max == max && st.file.used == used
    && var m := st.mems[0];
      && Spaced(m.areas) && m.next == LOWER_BOUND + used && WholePages(m.next) && CellsOk(m.areas, m.cells, st.file)
      && (forall k :: k in m.areas ==> m.areas[k] == Extent(n, {Read, Write}) && k + n <= m.next)
      && (forall k :: k in m.cells ==> !m.cells[k].cow && st.file.objs[m.cells[k].obj].backed)
      && (0 < used ==> LOWER_BOUND in m.areas && m.at(LOWER_BOUND) == Some(7))
  }

  // The state between mapping and writing.
  ghost function Mapped(st: State, n: nat): State
    requires |st.mems| == 1
  {
    var m := st.mems[0];
    State([WithArea(m, m.next, Extent(n, {Read, Write}), m.next + n, st.file.next)], NewObj(st.file, n))
  }

  lemma MapsNext(st: State, n: nat, used: nat, max: nat)
    requires Filled(st, n, used, max) && WholePages(n) && 0 < n && used + n <= max && LOWER_BOUND + max < UPPER_BOUND
    ensures |st.mems| == 1
    ensures var op := MapNew(0, 0, n, {Read, Write}); !Misfits(st, op) && Step(st, op).0 == Mapped(st, n)
    ensures var m := st.mems[0]; m.next !in m.areas && Spaced(Mapped(st, n).mems[0].areas)
  {
    hide Spaced;
    var m := st.mems[0];
    ScanStays(m.areas, m.next, n, UPPER_BOUND);
    FreePage(m.areas, m.next);
    SpacedMore(m.areas, m.next, Extent(n, {Read, Write}));
    assert st.mems[0 := Mapped(st, n).mems[0]] == Mapped(st, n).mems;
  }

  // A byte of an area that needs a place in the file, or has it.
  lemma OneByte(m: Memory, f: File, k: nat, a: nat, access: Access)
    requires Spaced(m.areas) && Within(m.areas, k, a) && k in m.cells && access in m.areas[k].prot
    ensures var (f', c, ok) := Touch(f, m.cells[k], m.areas[k].len, access);
      AccessTo(m.areas, m.cells, f, a, 1, access)
        == Reach(f', m.cells[k := c], if ok then 1 else 0, !ok && access == Write && m.cells[k].cow)
  {
    hide Touch, Spaced;
    KeyIs(m.areas, k, a);
    assert PageStep(a, 1) == 1;
  }

  // The last region has no place in the file yet.
  ghost predicate Between(st: State, n: nat, used: nat, max: nat) {
    && |st.mems| == 1 && FileOk(st.file) && st.file.max == max && st.file.used == used
    && var m, a := st.mems[0], LOWER_BOUND + used;
      && Spaced(m.areas) && m.next == a + n && WholePages(m.next) && CellsOk(m.areas, m.cells, st.file) && a in m.areas
      && (forall k :: k in m.areas ==> m.areas[k] == Extent(n, {Read, Write}) && k + n <= m.next)
      && (forall k :: k in m.cells ==> !m.cells[k].cow && st.file.objs[m.cells[k].obj].backed == (k != a))
      && (0 < used ==> LOWER_BOUND in m.areas && m.at(LOWER_BOUND) == Some(7))
  }

  // The new cell's object is new, so the others are as they were.
  lemma NewCell(areas: map<nat, Extent>, cells: map<nat, Cell>, f: File, a: nat, e: Extent)
    requires FileOk(f) && CellsOk(areas, cells, f) && a !in areas
    requires forall k :: k in cells ==> !cells[k].cow && f.objs[cells[k].obj].backed
    ensures var f', cells' := NewObj(f, e.len), cells[a := Cell(f.next, false)];
      && FileOk(f') && CellsOk(areas[a := e], cells', f')
      && forall k :: k in cells' ==> !cells'[k].cow && f'.objs[cells'[k].obj].backed == (k != a)
  {
  }

  lemma NewRegion(areas: map<nat, Extent>, n: nat, next: nat)
    requires forall k :: k in areas ==> areas[k] == Extent(n, {Read, Write}) && k + n <= next
    ensures var areas' := areas[next := Extent(n, {Read, Write})];
      forall k :: k in areas' ==> areas'[k] == Extent(n, {Read, Write}) && k + n <= next + n
  {
  }

  lemma MapsBetween(st: State, n: nat, used: nat, max: nat)
    requires Filled(st, n, used, max) && WholePages(n) && 0 < n && used + n <= max && LOWER_BOUND + max < UPPER_BOUND
    ensures |st.mems| == 1 && Between(Mapped(st, n), n, used, max)
  {
    hide Spaced, CellsOk, FileOk, WholePages;
    MapsNext(st, n, used, max);
    var m := st.mems[0];
    NewCell(m.areas, m.cells, st.file, m.next, Extent(n, {Read, Write}));
    NewRegion(m.areas, n, m.next);
    PagesSum(m.next, n);
    var m1 := Mapped(st, n).mems[0];
    assert m1.areas == m.areas[m.next := Extent(n, {Read, Write})];
    assert m1.cells == m.cells[m.next := Cell(st.file.next, false)];
    assert 0 < used ==> m1.at(LOWER_BOUND) == m.at(LOWER_BOUND);
  }

  lemma PagesSum(a: nat, b: nat)
    requires WholePages(a) && WholePages(b)
    ensures WholePages(a + b)
  {
  }

  lemma WritesLast(st: State, n: nat, used: nat, max: nat)
    requires Between(st, n, used, max) && 0 < n && used + n <= max
    ensures Filled(Step(st, WriteTo(0, LOWER_BOUND + used, [7])).0, n, used + n, max)
  {
    hide Spaced, AccessTo, Touch, FileOk;
    var m, a := st.mems[0], LOWER_BOUND + used;
    OneByte(m, st.file, a, a, Write);
    PlaceGiven(st, n, used, max);
    assert [7 as byte][..1] == [7];
    WriteKeepsAreas(m, a, [7], 1, false);
  }

  // The write gives the last region its place.
  lemma PlaceGiven(st: State, n: nat, used: nat, max: nat)
    requires Between(st, n, used, max) && 0 < n && used + n <= max
    ensures var m, a := st.mems[0], LOWER_BOUND + used;
      var (f', c, ok) := Touch(st.file, m.cells[a], n, Write);
      && ok && m.cells[a := c] == m.cells && FileOk(f') && CellsOk(m.areas, m.cells, f')
      && f'.max == max && f'.used == used + n
      && forall k :: k in m.cells ==> f'.objs[m.cells[k].obj].backed
  {
    hide Spaced;
    var m, a := st.mems[0], LOWER_BOUND + used;
    assert m.cells[a := m.cells[a]] == m.cells;
  }

  lemma FillsOne(st: State, n: nat, used: nat, max: nat)
    requires Filled(st, n, used, max) && WholePages(n) && 0 < n && used + n <= max && LOWER_BOUND + max < UPPER_BOUND
    ensures |st.mems| == 1
    ensures Filled(Step(Mapped(st, n), WriteTo(0, LOWER_BOUND + used, [7])).0, n, used + n, max)
  {
    hide Filled, Between, Step, Mapped;
    MapsBetween(st, n, used, max);
    WritesLast(Mapped(st, n), n, used, max);
  }

  lemma {:induction false} FillsUp(st: State, n: nat, used: nat, max: nat)
    requires Filled(st, n, used, max) && WholePages(n) && 0 < n && used <= max && LOWER_BOUND + max < UPPER_BOUND
    ensures |Answers(st, FillOps(n, used, max))| == |FillOps(n, used, max)|
    ensures exists full ::
      full + n > max && used <= full <= max && Filled(Final(st, FillOps(n, used, max)), n, full, max)
    decreases max - used
  {
    hide Filled, Step, Misfits;
    if used + n <= max {
      var op, op1, more := MapNew(0, 0, n, {Read, Write}), WriteTo(0, LOWER_BOUND + used, [7]), FillOps(n, used + n,
        max);
      MapsNext(st, n, used, max);
      FillsOne(st, n, used, max);
      NoMisfit(Mapped(st, n), op1);
      FillsUp(Step(Mapped(st, n), op1).0, n, used + n, max);
      TwoOps(st, op, op1, more);
    } else {
      assert Filled(Final(st, FillOps(n, used, max)), n, used, max);
    }
  }

  lemma NoMisfit(st: State, op: Op)
    requires !op.MapNew?
    ensures !Misfits(st, op)
  {
  }

  lemma StartsFilled(n: nat, max: nat)
    ensures Filled(Start(max), n, 0, max)
  {
  }

  // After a fork, with no room for a copy, a write to the first region is refused and loses it.
  lemma LosesFirst(st: State, n: nat, used: nat, max: nat)
    requires Filled(st, n, used, max) && 0 < used && used + n > max && 0 < n
    ensures var st1 := Step(st, ForkOf(0)).0;
      var (st2, answer) := Step(st1, WriteTo(0, LOWER_BOUND, [9]));
      && answer == Done(false) && |st2.mems| == 2
      && st2.mems[0].at(LOWER_BOUND) == Some(0) && st2.mems[1].at(LOWER_BOUND) == Some(7)
  {
    hide Spaced, WholePages, FileOk, AccessTo;
    var st1 := Step(st, ForkOf(0)).0;
    var m := st1.mems[0];
    assert m == Forked(st.mems[0]);
    OneByte(m, st1.file, LOWER_BOUND, LOWER_BOUND, Write);
    KeyIs(m.areas, LOWER_BOUND, LOWER_BOUND);
  }

  lemma FirstByte(st: State, n: nat, used: nat, max: nat)
    requires Filled(st, n, used, max) && 0 < used
    ensures st.mems[0].at(LOWER_BOUND) == Some(7)
  {
  }

  function LossOps(n: nat, max: nat): seq<Op>
    requires 0 < n
  {
    FillOps(n, 0, max) + [ForkOf(0), WriteTo(0, LOWER_BOUND, [9])]
  }

  /** Whatever the limit, as long as a region fits: before the fork the process reads 7; the write
      of 9 after it is refused, and the writer reads 0 where the other process still reads 7. */
  lemma SplitLoses(n: nat, max: nat)
    requires WholePages(n) && 0 < n <= max && LOWER_BOUND + max < UPPER_BOUND
    ensures Final(Start(max), FillOps(n, 0, max)).mems != []
    ensures Final(Start(max), FillOps(n, 0, max)).mems[0].at(LOWER_BOUND) == Some(7)
    ensures var ops, answers, st := LossOps(n, max), Answers(Start(max), LossOps(n, max)), Final(Start(max), LossOps(n,
      max));
      && |answers| == |ops| && answers[|ops| - 1] == Done(false) && |st.mems| == 2
      && st.mems[0].at(LOWER_BOUND) == Some(0) && st.mems[1].at(LOWER_BOUND) == Some(7)
  {
    hide Filled, Step, Misfits;
    var fill, more := FillOps(n, 0, max), [ForkOf(0), WriteTo(0, LOWER_BOUND, [9])];
    StartsFilled(n, max);
    FillsUp(Start(max), n, 0, max);
    var st := Final(Start(max), fill);
    var used :| used + n > max && 0 <= used <= max && Filled(st, n, used, max);
    FilledSome(st, n, used, max);
    FirstByte(st, n, used, max);
    LosesFirst(st, n, used, max);
    AnswersSplit(Start(max), fill, more);
    var st1 := Step(st, more[0]).0;
    NoMisfit(st, more[0]);
    NoMisfit(st1, more[1]);
    TwoOps(st, more[0], more[1], []);
    assert more == [more[0], more[1]] + [];
  }

  // A full file holds something, where a region fits at all.
  lemma FilledSome(st: State, n: nat, used: nat, max: nat)
    requires n <= max && used + n > max && Filled(st, n, used, max)
    ensures 0 < used && st.mems != []
  {
  }

  /** The same of the processes themselves, with regions that a system call may ask for, under the
      program's limit or any other. */
  method LossReached(n: nat, max: nat) returns (ms: seq<MemoryManager>, phys: PhysMemoryManager, ok: bool)
    requires WholePages(n) && 0 < n <= MAX_MAP_LENGTH && n <= max && LOWER_BOUND + max < UPPER_BOUND
    ensures Family(ms, phys) && phys.m_max_usage == max && |ms| == 2 && !ok
    ensures Reads(ms, phys, 0, LOWER_BOUND) == Some(0) && Reads(ms, phys, 1, LOWER_BOUND) == Some(7)
  {
    hide Answers, Final, Needed, AllComplete, Family, FillOps, Holds, Mirrored;
    var ops := LossOps(n, max);
    var answers;
    ghost var b;
    ms, phys, answers, b := RunProcesses(max, ops);
    SplitLoses(n, max);
    HoldsAt(ms[0].m_vmas, phys.W(), ms[0].m_last_allocated, b, Final(Start(max), ops).mems[0], LOWER_BOUND);
    HoldsAt(ms[1].m_vmas, phys.W(), ms[1].m_last_allocated, b, Final(Start(max), ops).mems[1], LOWER_BOUND);
    ok := answers[|ops| - 1].ok;
  }

  // So it is with regions of the greatest length in the program's own file.
  method LossInProgram() returns (ms: seq<MemoryManager>, phys: PhysMemoryManager, ok: bool)
    ensures Family(ms, phys) && phys.m_max_usage == MAX_SYSTEM_MEM && |ms| == 2 && !ok
    ensures Reads(ms, phys, 0, LOWER_BOUND) == Some(0) && Reads(ms, phys, 1, LOWER_BOUND) == Some(7)
  {
    ms, phys, ok := LossReached(MAX_MAP_LENGTH, MAX_SYSTEM_MEM);
  }
}
