/** Runs of processes with separate memories: how much of the file they can take, and how far
    they get with it. */
module MemoryRuns {
  import opened ByteSeq
  import opened Wrappers
  import opened AddressSpace
  import opened SeparateMemory
  import Sums

  // ---------- What is behind the areas ----------

  ghost predicate FileOk(f: File) { forall o :: o in f.objs ==> o < f.next }

  // Every area has an object of its length.
  ghost predicate CellsOk(areas: map<nat, Extent>, cells: map<nat, Cell>, f: File) {
    && cells.Keys == areas.Keys
    && forall k :: k in cells ==> cells[k].obj in f.objs && f.objs[cells[k].obj].len == areas[k].len
  }

  ghost predicate StateOk(st: State) {
    FileOk(st.file) && forall i :: 0 <= i < |st.mems| ==> CellsOk(st.mems[i].areas, st.mems[i].cells, st.file)
  }

  // Objects are only added, and keep their lengths.
  ghost predicate ObjsGrow(f: File, f': File) {
    && f'.max == f.max && f.next <= f'.next
    && forall o :: o in f.objs ==> o in f'.objs && f'.objs[o].len == f.objs[o].len
  }

  lemma CellsStayOk(areas: map<nat, Extent>, cells: map<nat, Cell>, f: File, f': File)
    requires CellsOk(areas, cells, f) && ObjsGrow(f, f')
    ensures CellsOk(areas, cells, f')
  {
  }

  lemma ProvidedGrows(f: File, o: nat)
    requires FileOk(f)
    ensures var f' := Provided(f, o).0;
      FileOk(f') && ObjsGrow(f, f') && f'.objs.Keys == f.objs.Keys && f'.next == f.next
  {
  }

  lemma TouchGrows(f: File, c: Cell, len: nat, access: Access)
    requires FileOk(f) && c.obj in f.objs && f.objs[c.obj].len == len
    ensures var (f', c', ok) := Touch(f, c, len, access);
      FileOk(f') && ObjsGrow(f, f') && c'.obj in f'.objs && f'.objs[c'.obj].len == len
  {
    hide Provided;
    ProvidedGrows(f, c.obj);
    ProvidedGrows(NewObj(f, len), c.obj);
    ProvidedGrows(Provided(NewObj(f, len), c.obj).0, f.next);
  }

  lemma TouchKeeps(areas: map<nat, Extent>, cells: map<nat, Cell>, f: File, k: nat, access: Access)
    requires FileOk(f) && CellsOk(areas, cells, f) && k in areas
    ensures k in cells && var (f', c, ok) := Touch(f, cells[k], areas[k].len, access);
      FileOk(f') && ObjsGrow(f, f') && CellsOk(areas, cells[k := c], f')
  {
    hide Touch, FileOk;
    TouchGrows(f, cells[k], areas[k].len, access);
  }

  lemma {:induction false} AccessGrows(areas: map<nat, Extent>, cells: map<nat, Cell>, f: File, at: nat, n: nat,
      access: Access)
    requires FileOk(f) && CellsOk(areas, cells, f)
    ensures var r := AccessTo(areas, cells, f, at, n, access);
      FileOk(r.file) && ObjsGrow(f, r.file) && CellsOk(areas, r.cells, r.file)
    decreases n
  {
    hide Touch, FileOk, PageStep, CellsOk, MayUse;
    if n > 0 && MayUse(areas, at, access) {
      var k := UsedKey(areas, at, access);
      TouchKeeps(areas, cells, f, k, access);
      var (f', c, ok) := Touch(f, cells[k], areas[k].len, access);
      if ok {
        var step := PageStep(at, n);
        AccessGrows(areas, cells[k := c], f', at + step, n - step, access);
      }
    }
  }

  lemma UsedKey(areas: map<nat, Extent>, at: nat, access: Access) returns (k: nat)
    requires MayUse(areas, at, access)
    ensures KeyAt(areas, at) == Some(k) && k in areas
  {
    k := KeyAt(areas, at).value;
  }

  // ---------- How large the file can become ----------

  ghost function Missing(f: File): map<nat, nat> {
    map o | o in f.objs :: if f.objs[o].backed then 0 else f.objs[o].len
  }

  // The file as it is, with what its objects may still take.
  ghost function FileOwes(f: File): nat { f.used + Sums.Sum(Missing(f)) }

  ghost function CellOwes(c: Cell, len: nat): nat { if c.cow then len else 0 }

  ghost function Copies(areas: map<nat, Extent>, cells: map<nat, Cell>): map<nat, nat> {
    map k | k in cells :: if k in areas then CellOwes(cells[k], areas[k].len) else 0
  }

  // The copies that copy-on-write areas may still need.
  ghost function CellsOwe(areas: map<nat, Extent>, cells: map<nat, Cell>): nat { Sums.Sum(Copies(areas, cells)) }

  ghost function MemsOwe(mems: seq<Memory>): nat {
    if mems == [] then 0 else CellsOwe(mems[0].areas, mems[0].cells) + MemsOwe(mems[1..])
  }

  /** The file with all that it may still take. Accesses leave it as it is. */
  ghost function Owes(st: State): nat { FileOwes(st.file) + MemsOwe(st.mems) }

  ghost function Lengths(m: Memory): map<nat, nat> { map k | k in m.areas :: m.areas[k].len }

  ghost function SizeOf(m: Memory): nat { Sums.Sum(Lengths(m)) }

  lemma MissingPut(f: File, o: nat, x: Obj, f': File)
    requires f'.objs == f.objs[o := x]
    ensures Sums.Sum(Missing(f')) + (if o in f.objs && !f.objs[o].backed then f.objs[o].len else 0)
         == Sums.Sum(Missing(f)) + (if x.backed then 0 else x.len)
  {
    var n := if x.backed then 0 else x.len;
    Sums.SumPut(Missing(f), o, n);
    assert Missing(f') == Missing(f)[o := n];
  }

  lemma ProvidedOwes(f: File, o: nat)
    requires o in f.objs
    ensures FileOwes(Provided(f, o).0) == FileOwes(f)
    ensures FileOwes(f) <= f.max ==> Provided(f, o).1
  {
    Sums.SumHas(Missing(f), o);
    if Provided(f, o).0 != f {
      MissingPut(f, o, f.objs[o].(backed := true), Provided(f, o).0);
    }
  }

  lemma NewObjOwes(f: File, len: nat)
    requires FileOk(f)
    ensures FileOwes(NewObj(f, len)) == FileOwes(f) + len && FileOk(NewObj(f, len)) && ObjsGrow(f, NewObj(f, len))
  {
    MissingPut(f, f.next, Obj(len, false), NewObj(f, len));
  }

  lemma TouchOwes(f: File, c: Cell, len: nat, access: Access)
    requires FileOk(f) && c.obj in f.objs
    ensures var (f', c', ok) := Touch(f, c, len, access);
      && FileOwes(f') + CellOwes(c', len) == FileOwes(f) + CellOwes(c, len)
      && (FileOwes(f) + CellOwes(c, len) <= f.max ==> ok)
  {
    hide Provided, FileOwes;
    if access == Write && c.cow {
      var f1 := NewObj(f, len);
      NewObjOwes(f, len);
      ProvidedOwes(f1, c.obj);
      ProvidedGrows(f1, c.obj);
      ProvidedOwes(Provided(f1, c.obj).0, f.next);
    } else {
      ProvidedOwes(f, c.obj);
    }
  }

  lemma CellPut(areas: map<nat, Extent>, cells: map<nat, Cell>, k: nat, c: Cell)
    requires k in cells && k in areas
    ensures CellsOwe(areas, cells[k := c]) + CellOwes(cells[k], areas[k].len)
         == CellsOwe(areas, cells) + CellOwes(c, areas[k].len)
  {
    Sums.SumPut(Copies(areas, cells), k, CellOwes(c, areas[k].len));
    assert Copies(areas, cells[k := c]) == Copies(areas, cells)[k := CellOwes(c, areas[k].len)];
  }

  lemma CellWithin(areas: map<nat, Extent>, cells: map<nat, Cell>, k: nat)
    requires k in cells && k in areas
    ensures CellOwes(cells[k], areas[k].len) <= CellsOwe(areas, cells)
  {
    Sums.SumHas(Copies(areas, cells), k);
  }

  lemma TouchCellOwes(areas: map<nat, Extent>, cells: map<nat, Cell>, f: File, k: nat, access: Access)
    requires FileOk(f) && CellsOk(areas, cells, f) && k in areas
    ensures k in cells && var (f', c, ok) := Touch(f, cells[k], areas[k].len, access);
      && FileOwes(f') + CellsOwe(areas, cells[k := c]) == FileOwes(f) + CellsOwe(areas, cells)
      && (FileOwes(f) + CellsOwe(areas, cells) <= f.max ==> ok)
  {
    hide Touch, FileOwes, CellsOwe, CellOwes;
    TouchOwes(f, cells[k], areas[k].len, access);
    CellPut(areas, cells, k, Touch(f, cells[k], areas[k].len, access).1);
    CellWithin(areas, cells, k);
  }

  /** An access leaves what is owed as it is, and with a file large enough for that it stops only
      where it is not permitted. */
  lemma {:induction false} AccessOwes(areas: map<nat, Extent>, cells: map<nat, Cell>, f: File, at: nat, n: nat,
      access: Access)
    requires FileOk(f) && CellsOk(areas, cells, f)
    ensures var r := AccessTo(areas, cells, f, at, n, access);
      && FileOwes(r.file) + CellsOwe(areas, r.cells) == FileOwes(f) + CellsOwe(areas, cells)
      && (FileOwes(f) + CellsOwe(areas, cells) <= f.max ==>
        !r.lost && (r.done < n ==> !MayUse(areas, at + r.done, access)))
    decreases n
  {
    hide Touch, FileOk, PageStep, FileOwes, CellsOwe, CellsOk, MayUse;
    if n > 0 && MayUse(areas, at, access) {
      var k := UsedKey(areas, at, access);
      TouchKeeps(areas, cells, f, k, access);
      TouchCellOwes(areas, cells, f, k, access);
      var (f', c, ok) := Touch(f, cells[k], areas[k].len, access);
      if ok {
        var step := PageStep(at, n);
        AccessOwes(areas, cells[k := c], f', at + step, n - step, access);
      }
    }
  }

  // ---------- Whole states ----------

  ghost function MemOwes(m: Memory): nat { CellsOwe(m.areas, m.cells) }

  lemma {:induction false} MemsPut(mems: seq<Memory>, i: nat, m: Memory)
    requires i < |mems|
    ensures MemsOwe(mems[i := m]) + MemOwes(mems[i]) == MemsOwe(mems) + MemOwes(m)
  {
    hide CellsOwe;
    var mems' := mems[i := m];
    if i == 0 {
      assert mems'[1..] == mems[1..];
    } else {
      assert mems'[1..] == mems[1..][i - 1 := m];
      MemsPut(mems[1..], i - 1, m);
    }
  }

  lemma {:induction false} MemsMore(mems: seq<Memory>, m: Memory)
    ensures MemsOwe(mems + [m]) == MemsOwe(mems) + MemOwes(m)
  {
    hide CellsOwe;
    if mems == [] {
      assert (mems + [m])[1..] == [];
    } else {
      assert (mems + [m])[1..] == mems[1..] + [m];
      MemsMore(mems[1..], m);
    }
  }

  lemma {:induction false} MemWithin(mems: seq<Memory>, i: nat)
    requires i < |mems|
    ensures MemOwes(mems[i]) <= MemsOwe(mems)
  {
    hide CellsOwe;
    if i > 0 { MemWithin(mems[1..], i - 1); }
  }

  lemma CowOwes(m: Memory)
    requires m.cells.Keys == m.areas.Keys
    ensures CellsOwe(m.areas, AllCow(m.cells)) == SizeOf(m)
  {
    assert Copies(m.areas, AllCow(m.cells)) == Lengths(m);
  }

  lemma NewAreaOwes(m: Memory, a: nat, e: Extent, next: nat, obj: nat)
    requires a !in m.areas && m.cells.Keys == m.areas.Keys
    ensures MemOwes(WithArea(m, a, e, next, obj)) == MemOwes(m)
    ensures SizeOf(WithArea(m, a, e, next, obj)) == SizeOf(m) + e.len
  {
    var m' := WithArea(m, a, e, next, obj);
    Sums.SumPut(Copies(m.areas, m.cells), a, 0);
    assert Copies(m'.areas, m'.cells) == Copies(m.areas, m.cells)[a := 0];
    Sums.SumPut(Lengths(m), a, e.len);
    assert Lengths(m') == Lengths(m)[a := e.len];
  }

  // What an operation adds to what is owed.
  ghost function Cost(st: State, op: Op): nat {
    if op.i >= |st.mems| then 0 else
    match op
    case ForkOf(i) => 2 * SizeOf(st.mems[i])
    case MapNew(_, _, len, _) => len
    case _ => 0
  }

  lemma ForkOwes(st: State, i: nat)
    requires StateOk(st) && i < |st.mems|
    ensures var st' := Step(st, ForkOf(i)).0; StateOk(st') && Owes(st') <= Owes(st) + 2 * SizeOf(st.mems[i])
  {
    hide FileOwes, CellsOwe, SizeOf, FileOk;
    var m := Forked(st.mems[i]);
    var child := m.(next := LOWER_BOUND);
    CowOwes(st.mems[i]);
    MemsPut(st.mems, i, m);
    MemsMore(st.mems[i := m], child);
  }

  lemma MapOwes(st: State, i: nat, addr: nat, len: nat, prot: set<Access>)
    requires StateOk(st) && i < |st.mems|
    ensures var st' := MapIn(st, i, addr, len, prot).0; StateOk(st') && Owes(st') <= Owes(st) + len
  {
    hide FileOwes, CellsOwe, FileOk, Chosen;
    var m := st.mems[i];
    match Place(m, addr, len)
    case At(a) =>
      ChosenFree(m, addr, len);
      var next := if addr == 0 then a + len else m.next;
      var m' := WithArea(m, a, Extent(len, prot), next, st.file.next);
      NewObjOwes(st.file, len);
      NewObjIn(st.file, len);
      NewAreaOwes(m, a, Extent(len, prot), next, st.file.next);
      MemsPut(st.mems, i, m');
      forall j | 0 <= j < |st.mems| ensures CellsOk(st.mems[j].areas, st.mems[j].cells, NewObj(st.file, len)) {
        CellsStayOk(st.mems[j].areas, st.mems[j].cells, st.file, NewObj(st.file, len));
      }
    case _ =>
  }

  lemma NewObjIn(f: File, len: nat)
    ensures f.next in NewObj(f, len).objs && NewObj(f, len).objs[f.next].len == len
  {
  }

  lemma ChosenFree(m: Memory, addr: nat, len: nat)
    requires Place(m, addr, len).At?
    ensures Place(m, addr, len).addr !in m.areas
  {
    hide Spaced, Scan;
    FreePage(m.areas, Place(m, addr, len).addr);
  }

  // The memory of one process and the file after an access.
  lemma AccessedOwes(st: State, i: nat, at: nat, n: nat, access: Access, m: Memory)
    requires StateOk(st) && i < |st.mems|
    requires var r := AccessTo(st.mems[i].areas, st.mems[i].cells, st.file, at, n, access);
      m.cells == r.cells && m.areas == st.mems[i].areas
    ensures var r := AccessTo(st.mems[i].areas, st.mems[i].cells, st.file, at, n, access);
      var st' := State(st.mems[i := m], r.file);
      && StateOk(st') && Owes(st') == Owes(st)
      && (Owes(st) <= st.file.max ==> !r.lost && (r.done < n ==> !MayUse(m.areas, at + r.done, access)))
  {
    hide FileOwes, CellsOwe, FileOk, CellsOk, AccessTo, MayUse;
    var old_ := st.mems[i];
    AccessGrows(old_.areas, old_.cells, st.file, at, n, access);
    AccessOwes(old_.areas, old_.cells, st.file, at, n, access);
    MemsPut(st.mems, i, m);
    MemWithin(st.mems, i);
    var f := AccessTo(old_.areas, old_.cells, st.file, at, n, access).file;
    forall j | 0 <= j < |st.mems| ensures CellsOk(st.mems[j].areas, st.mems[j].cells, f) {
      CellsStayOk(st.mems[j].areas, st.mems[j].cells, st.file, f);
    }
  }

  // Nothing is stopped but by what the process may do, and nothing is lost.
  ghost predicate Complete(st: State, op: Op) {
    op.i < |st.mems| && (op.WriteTo? || op.ReadFrom?) ==>
      var n := if op.WriteTo? then |op.data| else op.len;
      var access := if op.WriteTo? then Write else Read;
      var m := st.mems[op.i];
      var r := AccessTo(m.areas, m.cells, st.file, op.start, n, access);
      !r.lost && (r.done < n ==> !MayUse(m.areas, op.start + r.done, access))
  }

  lemma StepOwes(st: State, op: Op)
    requires StateOk(st)
    ensures StateOk(Step(st, op).0) && Owes(Step(st, op).0) <= Owes(st) + Cost(st, op)
    ensures Step(st, op).0.file.max == st.file.max
    ensures Owes(st) <= st.file.max ==> Complete(st, op)
  {
    hide StateOk, Owes, AccessTo, MayUse, SizeOf, MapIn;
    if op.i < |st.mems| {
      match op
      case ForkOf(i) => ForkOwes(st, i);
      case MapNew(i, addr, len, prot) =>
        MapOwes(st, i, addr, len, prot);
        MapMax(st, i, addr, len, prot);
      case WriteTo(i, start, data) =>
        var m := st.mems[i];
        var r := AccessTo(m.areas, m.cells, st.file, start, |data|, Write);
        AccessedOwes(st, i, start, |data|, Write, AfterWrite(m, start, data, r.done, r.lost).(cells := r.cells));
        AccessMax(st, i, start, |data|, Write);
      case ReadFrom(i, start, len) =>
        var m := st.mems[i];
        AccessedOwes(st, i, start, len, Read, m.(cells := AccessTo(m.areas, m.cells, st.file, start, len, Read).cells));
        AccessMax(st, i, start, len, Read);
    }
  }

  lemma MapMax(st: State, i: nat, addr: nat, len: nat, prot: set<Access>)
    requires i < |st.mems|
    ensures MapIn(st, i, addr, len, prot).0.file.max == st.file.max
  {
  }

  lemma AccessMax(st: State, i: nat, at: nat, n: nat, access: Access)
    requires StateOk(st) && i < |st.mems|
    ensures AccessTo(st.mems[i].areas, st.mems[i].cells, st.file, at, n, access).file.max == st.file.max
  {
    AccessGrows(st.mems[i].areas, st.mems[i].cells, st.file, at, n, access);
  }

  // ---------- Runs for which the file is large enough ----------

  // What the operations can take of the file, given the sizes of the processes.
  function Needed(sizes: seq<nat>, ops: seq<Op>): nat
    decreases |ops|
  {
    if ops == [] then 0
    else if ops[0].i >= |sizes| then Needed(sizes, ops[1..])
    else
      var n := sizes[ops[0].i];
      match ops[0]
      case ForkOf(_) => 2 * n + Needed(sizes + [n], ops[1..])
      case MapNew(i, _, len, _) => len + Needed(sizes[i := n + len], ops[1..])
      case _ => Needed(sizes, ops[1..])
  }

  ghost predicate AllComplete(st: State, ops: seq<Op>)
    decreases |ops|
  {
    ops == [] || Misfits(st, ops[0]) || (Complete(st, ops[0]) && AllComplete(Step(st, ops[0]).0, ops[1..]))
  }

  ghost predicate AtMost(mems: seq<Memory>, sizes: seq<nat>) {
    |sizes| == |mems| && forall i :: 0 <= i < |mems| ==> SizeOf(mems[i]) <= sizes[i]
  }

  lemma SameSize(m: Memory, m': Memory)
    requires m.areas == m'.areas
    ensures SizeOf(m) == SizeOf(m')
  {
  }

  // One operation: the sizes go on bounding the memories.
  lemma StepAtMost(st: State, sizes: seq<nat>, op: Op, more: seq<Op>) returns (sizes': seq<nat>)
    requires AtMost(st.mems, sizes) && StateOk(st)
    ensures AtMost(Step(st, op).0.mems, sizes')
    ensures Cost(st, op) + Needed(sizes', more) <= Needed(sizes, [op] + more)
  {
    hide SizeOf, AfterWrite, WithArea, AccessTo, Place, CellsOwe;
    assert ([op] + more)[1..] == more;
    sizes' := sizes;
    if op.i < |st.mems| {
      var m := st.mems[op.i];
      match op
      case ForkOf(i) =>
        sizes' := sizes + [sizes[i]];
        SameSize(m, Forked(m));
        SameSize(m, Forked(m).(next := LOWER_BOUND));
      case MapNew(i, addr, len, prot) =>
        sizes' := sizes[i := sizes[i] + len];
        if Place(m, addr, len).At? {
          var a := Place(m, addr, len).addr;
          ChosenFree(m, addr, len);
          NewAreaOwes(m, a, Extent(len, prot), if addr == 0 then a + len else m.next, st.file.next);
        }
      case WriteTo(i, start, data) =>
        var r := AccessTo(m.areas, m.cells, st.file, start, |data|, Write);
        WriteKeepsAreas(m, start, data, r.done, r.lost);
        SameSize(m, AfterWrite(m, start, data, r.done, r.lost).(cells := r.cells));
      case ReadFrom(i, start, len) =>
        SameSize(m, m.(cells := AccessTo(m.areas, m.cells, st.file, start, len, Read).cells));
    }
  }

  lemma WriteKeepsAreas(m: Memory, start: nat, data: seq<byte>, done: nat, lost: bool)
    requires done <= |data|
    ensures var m' := AfterWrite(m, start, data, done, lost); m'.areas == m.areas && m'.next == m.next
  {
  }

  /** With a file as large as the operations can need, every read gives all bytes up to the first
      that may not be read, every write stores all up to the first that may not be written, and
      nothing is ever lost. */
  lemma {:induction false} NeverShort(st: State, sizes: seq<nat>, ops: seq<Op>)
    requires StateOk(st) && AtMost(st.mems, sizes) && Owes(st) + Needed(sizes, ops) <= st.file.max
    ensures AllComplete(st, ops)
    decreases |ops|
  {
    hide Step, Complete, Cost, Needed, AtMost, StateOk, Owes, Misfits;
    if ops != [] && !Misfits(st, ops[0]) {
      assert ops == [ops[0]] + ops[1..];
      StepOwes(st, ops[0]);
      var sizes' := StepAtMost(st, sizes, ops[0], ops[1..]);
      NeverShort(Step(st, ops[0]).0, sizes', ops[1..]);
    }
  }

  lemma NothingOwed(max: nat)
    ensures StateOk(Start(max)) && Owes(Start(max)) == 0 && AtMost(Start(max).mems, [0])
  {
    assert Missing(Start(max).file) == map[] && Copies(map[], map[]) == map[] && Lengths(NO_MEMORY) == map[];
    assert MemsOwe(Start(max).mems[1..]) == 0;
  }

  // ---------- Runs that stay below the upper bound ----------

  // Requests as system calls make them, for whole pages anywhere.
  predicate Ordinary(op: Op) {
    op.MapNew? ==> op.addr == 0 && WholePages(op.len) && 0 < op.len <= MAX_MAP_LENGTH
  }

  ghost predicate Under(m: Memory, h: nat) {
    && Spaced(m.areas) && WholePages(m.next) && m.next <= h
    && forall k :: k in m.areas ==> k + m.areas[k].len <= h && m.areas[k].len <= MAX_MAP_LENGTH
  }

  ghost predicate AllUnder(mems: seq<Memory>, h: nat) { forall i :: 0 <= i < |mems| ==> Under(mems[i], h) }

  // A scan that starts low ends low, and below the bound it always finds room.
  lemma PlacedUnder(m: Memory, len: nat, prot: set<Access>, h: nat, obj: nat)
    requires Under(m, h) && WholePages(len) && 0 < len <= MAX_MAP_LENGTH
    requires LOWER_BOUND <= h && h + 2 * MAX_MAP_LENGTH <= UPPER_BOUND
    ensures Place(m, 0, len).At? && Fits(m.areas, Place(m, 0, len).addr, len)
    ensures var a := Place(m, 0, len).addr;
      Under(WithArea(m, a, Extent(len, prot), a + len, obj), h + 2 * MAX_MAP_LENGTH)
  {
    hide Spaced, Scan, KeyAt, FreeRange;
    var dest := Scan(m.areas, m.next, len, UPPER_BOUND).0;
    ScanNear(m.areas, m.next, len, UPPER_BOUND);
    assert dest < h + MAX_MAP_LENGTH;
    ScanFree(m.areas, m.next, len, UPPER_BOUND);
    LowFits(m.areas, m.next, len, UPPER_BOUND);
    FreePage(m.areas, dest);
    SpacedMore(m.areas, dest, Extent(len, prot));
  }

  lemma StepUnder(st: State, op: Op, h: nat)
    requires AllUnder(st.mems, h) && Ordinary(op) && LOWER_BOUND <= h && h + 2 * MAX_MAP_LENGTH <= UPPER_BOUND
    ensures AllUnder(Step(st, op).0.mems, h + 2 * MAX_MAP_LENGTH) && !Misfits(st, op)
    ensures var answer := Step(st, op).1; answer.Region? ==> answer.placed.At?
  {
    hide AfterWrite, WithArea, AccessTo, Place, Spaced, Fits;
    if op.i < |st.mems| {
      var m := st.mems[op.i];
      match op
      case ForkOf(i) =>
      case MapNew(i, addr, len, prot) => PlacedUnder(m, len, prot, h, st.file.next);
      case WriteTo(i, start, data) =>
        var r := AccessTo(m.areas, m.cells, st.file, start, |data|, Write);
        WriteKeepsAreas(m, start, data, r.done, r.lost);
      case ReadFrom(_, _, _) =>
    }
  }

  /** As long as all requests are for whole pages anywhere, a few million operations never reach
      the upper bound: every request is met, and none breaks the areas up. */
  lemma {:induction false} AlwaysPlaced(st: State, ops: seq<Op>, h: nat)
    requires AllUnder(st.mems, h) && LOWER_BOUND <= h
    requires (forall k :: 0 <= k < |ops| ==> Ordinary(ops[k])) && h + 2 * MAX_MAP_LENGTH * |ops| <= UPPER_BOUND
    ensures |Answers(st, ops)| == |ops|
    ensures forall k :: 0 <= k < |ops| && Answers(st, ops)[k].Region? ==> Answers(st, ops)[k].placed.At?
    decreases |ops|
  {
    hide Step, AllUnder, Misfits;
    if ops != [] {
      StepUnder(st, ops[0], h);
      AlwaysPlaced(Step(st, ops[0]).0, ops[1..], h + 2 * MAX_MAP_LENGTH);
    }
  }

  // ---------- Accesses ----------

  // All of a page may be used if its first byte may.
  lemma PageWithin(areas: map<nat, Extent>, k: nat, a: nat, b: nat)
    requires Spaced(areas) && k in areas && a <= b < PageOf(a) + PAGE_SIZE
    ensures Within(areas, k, a) <==> Within(areas, k, b)
  {
    var end := k + areas[k].len;
    assert WholePages(k) && WholePages(end);
    assert PageOf(a) <= a;
  }

  lemma PageAlike(areas: map<nat, Extent>, a: nat, b: nat, access: Access)
    requires Spaced(areas) && a <= b < PageOf(a) + PAGE_SIZE
    ensures KeyAt(areas, a) == KeyAt(areas, b) && (MayUse(areas, a, access) <==> MayUse(areas, b, access))
  {
    hide Spaced, PageOf, Within;
    if KeyAt(areas, a).Some? {
      var k := KeyAt(areas, a).value;
      HasKey(areas, k, a);
      PageWithin(areas, k, a, b);
      KeyIs(areas, k, b);
    }
    if KeyAt(areas, b).Some? {
      var k := KeyAt(areas, b).value;
      HasKey(areas, k, b);
      PageWithin(areas, k, a, b);
      KeyIs(areas, k, a);
    }
  }

  lemma HasKey(areas: map<nat, Extent>, k: nat, a: nat)
    requires Within(areas, k, a)
    ensures k in areas
  {
  }

  /** An access stops before the first byte that may not be used. */
  lemma {:induction false} AccessMay(areas: map<nat, Extent>, cells: map<nat, Cell>, f: File, at: nat, n: nat,
      access: Access)
    requires Spaced(areas)
    ensures forall a :: at <= a < at + AccessTo(areas, cells, f, at, n, access).done ==> MayUse(areas, a, access)
    decreases n
  {
    hide Touch, PageStep, Spaced, MayUse;
    if n > 0 && MayUse(areas, at, access) {
      var k := UsedKey(areas, at, access);
      if k in cells {
        var (f', c, ok) := Touch(f, cells[k], areas[k].len, access);
        var step := PageStep(at, n);
        forall a | at <= a < at + step ensures MayUse(areas, a, access) {
          PageAlike(areas, at, a, access);
        }
        if ok {
          AccessMay(areas, cells[k := c], f', at + step, n - step, access);
        }
      }
    }
  }
}
