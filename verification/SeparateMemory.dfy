/** What processes with memories of their own do, where a fork copies everything at once, with
    an account of the file that limits how much they can use. */
module SeparateMemory {
  import opened ByteSeq
  import opened Wrappers
  import opened AddressSpace
  import Sums

  // The object behind an area, and whether a write must split it off first.
  datatype Cell = Cell(obj: nat, cow: bool)

  // What is read at every address, where the areas are, where the next scan starts, and what is
  // behind each area.
  datatype Memory = Memory(at: int -> Option<byte>, areas: map<nat, Extent>, next: nat, cells: map<nat, Cell>)

  const NO_MEMORY: Memory := Memory((a: int) => None, map[], LOWER_BOUND, map[])

  datatype Obj = Obj(len: nat, backed: bool)

  // The length of the file, its limit, and which objects have a place in it.
  datatype File = File(used: nat, max: nat, objs: map<nat, Obj>, next: nat)

  datatype State = State(mems: seq<Memory>, file: File)

  // One process without areas over an empty file.
  function Start(max: nat): State { State([NO_MEMORY], File(0, max, map[], 0)) }

  // ---------- Accesses ----------

  // A place in the file for an object: the one it has, or a new one if there is room.
  function Provided(f: File, o: nat): (File, bool) {
    if o !in f.objs then (f, false)
    else if f.objs[o].backed then (f, true)
    else if f.used + f.objs[o].len <= f.max then
      (f.(used := f.used + f.objs[o].len, objs := f.objs[o := f.objs[o].(backed := true)]), true)
    else (f, false)
  }

  function NewObj(f: File, len: nat): File {
    f.(objs := f.objs[f.next := Obj(len, false)], next := f.next + 1)
  }

  // A copy of an object, which needs a place itself first.
  function Split(f: File, o: nat, len: nat): (File, bool) {
    var (f1, ok) := Provided(NewObj(f, len), o);
    if ok then Provided(f1, f.next) else (f1, false)
  }

  // An access to an area; a write to a copy-on-write area splits it off whether there is room or not.
  function Touch(f: File, c: Cell, len: nat, access: Access): (File, Cell, bool) {
    if access == Write && c.cow then
      var (f', ok) := Split(f, c.obj, len);
      (f', Cell(f.next, false), ok)
    else
      var (f', ok) := Provided(f, c.obj);
      (f', c, ok)
  }

  // To the end of the page, or of the stretch.
  function PageStep(at: nat, n: nat): (k: nat)
    ensures n > 0 ==> 0 < k <= n
    ensures at + k <= PageOf(at) + PAGE_SIZE && (k < n ==> WholePages(at + k))
  {
    var left := PAGE_SIZE - at % PAGE_SIZE;
    if n > left then left else n
  }

  // What comes of an access to a stretch: how far it got, and whether a split has failed.
  datatype Reach = Reach(file: File, cells: map<nat, Cell>, done: nat, lost: bool)

  /** Page by page, up to the first page that may not be used or has no place in the file. */
  ghost function AccessTo(areas: map<nat, Extent>, cells: map<nat, Cell>, f: File, at: nat, n: nat,
      access: Access): (r: Reach)
    ensures r.done <= n
    decreases n
  {
    if n == 0 || !MayUse(areas, at, access) then Reach(f, cells, 0, false)
    else
      var k := KeyAt(areas, at).value;
      if k !in cells then Reach(f, cells, 0, false)
      else
        var (f', c, ok) := Touch(f, cells[k], areas[k].len, access);
        if !ok then Reach(f', cells[k := c], 0, access == Write && cells[k].cow)
        else
          var step := PageStep(at, n);
          var r := AccessTo(areas, cells[k := c], f', at + step, n - step, access);
          r.(done := step + r.done)
  }

  // ---------- Operations ----------

  datatype Op =
    | ForkOf(i: nat)
    | MapNew(i: nat, addr: nat, len: nat, prot: set<Access>)
    | WriteTo(i: nat, start: nat, data: seq<byte>)
    | ReadFrom(i: nat, start: nat, len: nat)

  // What the caller is told.
  datatype Answer = Child | Region(placed: Placed) | Done(ok: bool) | Data(bytes: seq<byte>) | NoProcess

  function Overlaid(m: Memory, start: nat, data: seq<byte>): Memory {
    m.(at := a => if start <= a < start + |data| then Some(data[a - start]) else m.at(a))
  }

  // The area around a holds zeros.
  ghost function Hollow(m: Memory, a: int): Memory {
    m.(at := b => if KeyAt(m.areas, a).Some? && Within(m.areas, KeyAt(m.areas, a).value, b) then Some(0) else m.at(b))
  }

  /** A refused write leaves what it had written before the page where it stopped, or, where a
      split failed, zeros in the area of that page. */
  ghost function AfterWrite(m: Memory, start: nat, data: seq<byte>, done: nat, lost: bool): Memory
    requires done <= |data|
  {
    var m' := Overlaid(m, start, data[..done]);
    if lost then Hollow(m', start + done) else m'
  }

  function Loaded(m: Memory, start: nat, n: nat): (s: seq<byte>)
    ensures |s| == n && forall k :: 0 <= k < n ==> s[k] == ByteAt(m, start + k)
  {
    seq<byte>(n, j requires 0 <= j => ByteAt(m, start + j))
  }

  function ByteAt(m: Memory, a: int): byte { match m.at(a) case Some(b) => b case None => 0 }

  function AllCow(cells: map<nat, Cell>): map<nat, Cell> {
    map k | k in cells :: cells[k].(cow := true)
  }

  function Forked(m: Memory): Memory { m.(cells := AllCow(m.cells)) }

  function WithArea(m: Memory, a: nat, e: Extent, next: nat, obj: nat): Memory {
    Memory(b => if a <= b < a + e.len then Some(0) else m.at(b), m.areas[a := e], next, m.cells[a := Cell(obj, false)])
  }

  // Where the process's next region goes; nothing is promised of areas that are not apart.
  ghost function Place(m: Memory, addr: nat, len: nat): Placed {
    if Spaced(m.areas) then Chosen(m.areas, m.next, addr, len) else InvalidArg
  }

  ghost function MapIn(st: State, i: nat, addr: nat, len: nat, prot: set<Access>): (State, Answer)
    requires i < |st.mems|
  {
    var m := st.mems[i];
    match Place(m, addr, len)
    case At(a) =>
      var m' := WithArea(m, a, Extent(len, prot), if addr == 0 then a + len else m.next, st.file.next);
      (State(st.mems[i := m'], NewObj(st.file, len)), Region(At(a)))
    case other => (st, Region(other))
  }

  ghost function WriteIn(st: State, i: nat, start: nat, data: seq<byte>): (State, Answer)
    requires i < |st.mems|
  {
    var m := st.mems[i];
    var r := AccessTo(m.areas, m.cells, st.file, start, |data|, Write);
    (State(st.mems[i := AfterWrite(m, start, data, r.done, r.lost).(cells := r.cells)], r.file), Done(r.done == |data|))
  }

  ghost function ReadIn(st: State, i: nat, start: nat, len: nat): (State, Answer)
    requires i < |st.mems|
  {
    var m := st.mems[i];
    var r := AccessTo(m.areas, m.cells, st.file, start, len, Read);
    (State(st.mems[i := m.(cells := r.cells)], r.file), Data(Loaded(m, start, r.done)))
  }

  ghost function Step(st: State, op: Op): (State, Answer) {
    if op.i >= |st.mems| then (st, NoProcess) else
    match op
    case ForkOf(i) =>
      var m := Forked(st.mems[i]);
      (st.(mems := st.mems[i := m] + [m.(next := LOWER_BOUND)]), Child)
    case MapNew(i, addr, len, prot) => MapIn(st, i, addr, len, prot)
    case WriteTo(i, start, data) => WriteIn(st, i, start, data)
    case ReadFrom(i, start, len) => ReadIn(st, i, start, len)
  }

  /** A request that breaks the areas up: its first page is free, but the whole does not fit. */
  ghost predicate Misfits(st: State, op: Op) {
    && op.MapNew? && op.i < |st.mems|
    && var m := st.mems[op.i];
      var placed := Place(m, op.addr, op.len);
      placed.At? && !Fits(m.areas, placed.addr, op.len)
  }

  // The answers, and the state, up to the first request that misfits.
  ghost function Answers(st: State, ops: seq<Op>): seq<Answer>
    decreases |ops|
  {
    if ops == [] || Misfits(st, ops[0]) then []
    else [Step(st, ops[0]).1] + Answers(Step(st, ops[0]).0, ops[1..])
  }

  ghost function Final(st: State, ops: seq<Op>): State
    decreases |ops|
  {
    if ops == [] || Misfits(st, ops[0]) then st else Final(Step(st, ops[0]).0, ops[1..])
  }

  lemma {:induction false} AnswersSplit(st: State, ops: seq<Op>, more: seq<Op>)
    requires |Answers(st, ops)| == |ops|
    ensures Final(st, ops + more) == Final(Final(st, ops), more)
    ensures Answers(st, ops + more) == Answers(st, ops) + Answers(Final(st, ops), more)
    decreases |ops|
  {
    hide Step, Misfits;
    if ops == [] {
      assert ops + more == more;
    } else {
      assert (ops + more)[1..] == ops[1..] + more;
      AnswersSplit(Step(st, ops[0]).0, ops[1..], more);
    }
  }

  lemma OneOp(st: State, op: Op, more: seq<Op>)
    requires !Misfits(st, op)
    ensures Answers(st, [op] + more) == [Step(st, op).1] + Answers(Step(st, op).0, more)
    ensures Final(st, [op] + more) == Final(Step(st, op).0, more)
  {
    hide Step, Misfits;
    assert ([op] + more)[1..] == more;
  }

  lemma TwoOps(st: State, op: Op, op1: Op, more: seq<Op>)
    requires !Misfits(st, op) && !Misfits(Step(st, op).0, op1)
    ensures var st2 := Step(Step(st, op).0, op1).0;
      && Answers(st, [op, op1] + more) == [Step(st, op).1, Step(Step(st, op).0, op1).1] + Answers(st2, more)
      && Final(st, [op, op1] + more) == Final(st2, more)
  {
    hide Step, Misfits, Answers, Final;
    assert [op, op1] + more == [op] + ([op1] + more);
    OneOp(st, op, [op1] + more);
    OneOp(Step(st, op).0, op1, more);
  }
}
