/** Whole runs of a family of forked processes, against separate memories. */
module CowRun {
  import opened AddressSpace
  import opened ByteSeq
  import opened CowFamily
  import opened CowLedger
  import opened CowMemory
  import opened CowModel
  import opened MemoryRuns
  import opened Numbers
  import opened SeparateMemory
  import opened UserMemory
  import opened Wrappers

  // A process reads what the separate memory holds, its areas lie where that one's do, and what is
  // behind them is the same.
  ghost predicate Holds(vmas: map<nat, Vma>, w: World, last: nat, b: Book, m: Memory) {
    && Sound(w) && Among(vmas, w) && MapOk(vmas)
    && m.areas == Layout(vmas) && m.next == last && Behind(vmas, w, b, m.cells)
    && forall a: int :: Sees(vmas, w, a) == m.at(a)
  }

  ghost predicate Agree(ms: seq<MemoryManager>, phys: PhysMemoryManager, st: State, b: Book)
    reads phys, phys.areas.Keys, phys.backs.Keys, ms
  {
    && Family(ms, phys) && |st.mems| == |ms|
    && Mirrored(ShapeOf(phys.W()), b) && st.file == b.file && b.file.max == phys.m_max_usage
    && forall i :: 0 <= i < |ms| ==> Holds(ms[i].m_vmas, phys.W(), ms[i].m_last_allocated, b, st.mems[i])
  }

  lemma HoldsParts(vmas: map<nat, Vma>, w: World, last: nat, b: Book, m: Memory)
    requires Holds(vmas, w, last, b, m)
    ensures Sound(w) && Among(vmas, w) && MapOk(vmas) && Spaced(m.areas)
    ensures m.areas == Layout(vmas) && m.next == last && Behind(vmas, w, b, m.cells)
  {
    hide Sound, MapOk, Spaced;
    MapSpaced(vmas);
  }

  lemma FamilyParts(ms: seq<MemoryManager>, phys: PhysMemoryManager, i: nat)
    requires Family(ms, phys) && i < |ms|
    ensures Sound(phys.W()) && Among(ms[i].m_vmas, phys.W()) && MapOk(ms[i].m_vmas)
  {
    ms[i].Parts();
  }

  lemma DifferentAreas(ms: seq<MemoryManager>, phys: PhysMemoryManager, i: nat, j: nat)
    requires Family(ms, phys) && i < |ms| && j < |ms| && i != j
    ensures ms[i] != ms[j] && ms[i].m_vmas.Values !! ms[j].m_vmas.Values
  {
    hide PhysMemoryManager.Valid, Sound, MapOk;
    ms[i].Parts();
    ms[j].Parts();
    NoCommonArea(phys.owner, ms[i], ms[i].m_vmas, ms[j], ms[j].m_vmas);
  }

  // Another process's areas have what they had.
  lemma BehindStays(mine: map<nat, Vma>, theirs: map<nat, Vma>, w: World, w': World, b: Book, b': Book,
      cells: map<nat, Cell>)
    requires Behind(theirs, w, b, cells) && OtherAreasSame(mine, w, w') && mine.Values !! theirs.Values
    requires IdsGrow(b, b')
    ensures Behind(theirs, w', b', cells)
  {
    forall k | k in theirs ensures theirs[k] !in mine.Values {
      assert theirs[k] in theirs.Values;
    }
  }

  // A process that nothing has happened to.
  lemma StillHolds(mine: map<nat, Vma>, theirs: map<nat, Vma>, w: World, w': World, last: nat, b: Book, b': Book,
      m: Memory)
    requires Holds(theirs, w, last, b, m) && Sound(w') && Among(theirs, w')
    requires OtherAreasSame(mine, w, w') && mine.Values !! theirs.Values && IdsGrow(b, b')
    requires forall a: int :: Sees(theirs, w', a) == Sees(theirs, w, a)
    ensures Holds(theirs, w', last, b', m)
  {
    hide Sound, Sees, Behind, OtherAreasSame, IdsGrow, MapOk;
    BehindStays(mine, theirs, w, w', b, b', m.cells);
  }

  // ---------- Writes and reads ----------

  lemma HollowRight(vmas: map<nat, Vma>, m: Memory, a: int, b: int)
    requires MapOk(vmas) && m.areas == Layout(vmas)
    ensures Hollow(m, a).at(b)
      == if AreaAt(vmas, a).Some? && Covers(AreaAt(vmas, a).value, b) then Some(0) else m.at(b)
  {
    hide MapOk, AreaAt, Layout, Covers;
    AreaKey(vmas, a);
    if KeyAt(m.areas, a).Some? {
      CoversWithin(vmas, KeyAt(m.areas, a).value, b);
    }
  }

  /** A write does to what the process sees what it does to a separate memory, refused or not. */
  lemma WriterHolds(vmas: map<nat, Vma>, w: World, w': World, last: nat, b: Book, b': Book, m: Memory,
      cells: map<nat, Cell>,
      start: nat, data: seq<byte>, done: nat, lost: bool)
    requires Holds(vmas, w, last, b, m) && done <= |data| && Sound(w') && Among(vmas, w')
    requires WriterSees(vmas, w, w', start, data[..done], lost) && Behind(vmas, w', b', cells)
    ensures Holds(vmas, w', last, b', AfterWrite(m, start, data, done, lost).(cells := cells))
  {
    hide Sound, Sees, MapOk, Layout, Hollow, Behind;
    var m' := AfterWrite(m, start, data, done, lost);
    WriteKeepsAreas(m, start, data, done, lost);
    forall a: int ensures Sees(vmas, w', a) == m'.at(a) {
      HollowRight(vmas, Overlaid(m, start, data[..done]), start + done, a);
    }
  }

  lemma EndedParts(vmas: map<nat, Vma>, w0: World, b0: Book, cells0: map<nat, Cell>, w: World, b: Book,
      start: nat, n: nat, access: Access, done: nat, lost: bool)
    requires Ended(vmas, w0, b0, cells0, w, b, start, n, access, done, lost)
    ensures var r := AccessTo(Layout(vmas), cells0, b0.file, start, n, access);
      && Mirrored(ShapeOf(w), b) && Behind(vmas, w, b, r.cells) && IdsGrow(b0, b) && OtherAreasSame(vmas, w0, w)
      && b.file == r.file && b.file.max == b0.file.max && done == r.done && lost == r.lost
  {
    hide AccessTo, Mirrored, Behind, OtherAreasSame;
  }

  method DoWrite(ms: seq<MemoryManager>, phys: PhysMemoryManager, i: nat, start: nat, data: seq<byte>, ghost st: State,
      ghost b: Book)
    returns (ok: bool, ghost b': Book)
    requires Agree(ms, phys, st, b) && i < |ms| && start < WORD
    modifies phys, phys.areas.Keys, phys.backs.Keys
    ensures var (st', answer) := WriteIn(st, i, start, data); Agree(ms, phys, st', b') && answer == Done(ok)
    ensures phys.areas.Keys == old(phys.areas).Keys && fresh(phys.backs.Keys - old(phys.backs).Keys)
  {
    hide Family, Holds, AfterWrite, WriterSees, Ended, Sound, MapOk, Among, Layout, Mirrored, Behind, OtherAreasSame,
      IdsGrow, AccessTo, ShapeOf;
    ghost var vmas, w, m := ms[i].m_vmas, phys.W(), st.mems[i];
    HoldsParts(vmas, w, ms[i].m_last_allocated, b, m);
    ghost var done, lost;
    ok, done, lost, b' := CowFamily.Write(ms, phys, i, start, data, b, m.cells);
    FamilyParts(ms, phys, i);
    EndedParts(vmas, w, b, m.cells, phys.W(), b', start, |data|, Access.Write, done, lost);
    ghost var r := AccessTo(m.areas, m.cells, b.file, start, |data|, Access.Write);
    WriterHolds(vmas, w, phys.W(), ms[i].m_last_allocated, b, b', m, r.cells, start, data, done, lost);
    forall j: nat | j < |ms| && j != i
      ensures Holds(ms[j].m_vmas, phys.W(), ms[j].m_last_allocated, b', st.mems[j])
    {
      FamilyParts(ms, phys, j);
      DifferentAreas(ms, phys, i, j);
      HoldsParts(ms[j].m_vmas, w, ms[j].m_last_allocated, b, st.mems[j]);
      forall a: int ensures Sees(ms[j].m_vmas, phys.W(), a) == Sees(ms[j].m_vmas, w, a) {
        assert Reads(ms, phys, j, a) == old(Reads(ms, phys, j, a));
      }
      StillHolds(vmas, ms[j].m_vmas, w, phys.W(), ms[j].m_last_allocated, b, b', st.mems[j]);
    }
  }

  lemma ReaderHolds(vmas: map<nat, Vma>, w: World, w': World, last: nat, b: Book, b': Book, m: Memory,
      cells: map<nat, Cell>)
    requires Holds(vmas, w, last, b, m) && Sound(w') && Among(vmas, w') && Behind(vmas, w', b', cells)
    requires forall a: int :: Sees(vmas, w', a) == Sees(vmas, w, a)
    ensures Holds(vmas, w', last, b', m.(cells := cells))
  {
    hide Sound, Sees, MapOk, Layout, Behind;
  }

  lemma LoadedRight(m: Memory, start: nat, data: seq<byte>)
    requires forall k :: 0 <= k < |data| ==> m.at(start + k) == Some(data[k])
    ensures Loaded(m, start, |data|) == data
  {
    forall k | 0 <= k < |data| ensures Loaded(m, start, |data|)[k] == data[k] {
      assert m.at(start + k) == Some(data[k]);
    }
  }

  lemma HoldsAt(vmas: map<nat, Vma>, w: World, last: nat, b: Book, m: Memory, a: int)
    requires Holds(vmas, w, last, b, m)
    ensures Sees(vmas, w, a) == m.at(a)
  {
  }

  method DoRead(ms: seq<MemoryManager>, phys: PhysMemoryManager, i: nat, start: nat, len: nat, ghost st: State,
      ghost b: Book)
    returns (data: seq<byte>, ghost b': Book)
    requires Agree(ms, phys, st, b) && i < |ms| && start < WORD
    modifies phys, phys.areas.Keys, phys.backs.Keys
    ensures var (st', answer) := ReadIn(st, i, start, len); Agree(ms, phys, st', b') && answer == Data(data)
    ensures phys.areas.Keys == old(phys.areas).Keys && fresh(phys.backs.Keys - old(phys.backs).Keys)
  {
    hide Family, Holds, Ended, Sound, MapOk, Among, Layout, Mirrored, Behind, OtherAreasSame, IdsGrow, AccessTo,
      ShapeOf, Sees, Loaded;
    ghost var vmas, w, m := ms[i].m_vmas, phys.W(), st.mems[i];
    HoldsParts(vmas, w, ms[i].m_last_allocated, b, m);
    var left;
    data, left, b' := CowFamily.Read(ms, phys, i, start, len, b, m.cells);
    EndedParts(vmas, w, b, m.cells, phys.W(), b', start, len, Access.Read, |data|, false);
    ghost var r := AccessTo(m.areas, m.cells, b.file, start, len, Access.Read);
    forall k | 0 <= k < |data| ensures m.at(start + k) == Some(data[k]) {
      HoldsAt(vmas, w, ms[i].m_last_allocated, b, m, start + k);
    }
    LoadedRight(m, start, data);
    forall j: nat | j < |ms|
      ensures Holds(ms[j].m_vmas, phys.W(), ms[j].m_last_allocated, b',
        if j == i then m.(cells := r.cells) else st.mems[j])
    {
      FamilyParts(ms, phys, j);
      HoldsParts(ms[j].m_vmas, w, ms[j].m_last_allocated, b, st.mems[j]);
      forall a: int ensures Sees(ms[j].m_vmas, phys.W(), a) == Sees(ms[j].m_vmas, w, a) {
        assert Reads(ms, phys, j, a) == old(Reads(ms, phys, j, a));
      }
      if j == i {
        ReaderHolds(vmas, w, phys.W(), ms[i].m_last_allocated, b, b', m, r.cells);
      } else {
        DifferentAreas(ms, phys, i, j);
        StillHolds(vmas, ms[j].m_vmas, w, phys.W(), ms[j].m_last_allocated, b, b', st.mems[j]);
      }
    }
  }

  // ---------- Forks ----------

  lemma PartedBehind(vmas: map<nat, Vma>, m: map<nat, Vma>, w: World, w': World, b: Book, cells: map<nat, Cell>)
    requires Parted(vmas, m, w, w') && Behind(vmas, w, b, cells)
    ensures Behind(vmas, w', b, AllCow(cells)) && Behind(m, w', b, AllCow(cells))
  {
    forall k | k in vmas ensures w'.areas[m[k]] == w'.areas[vmas[k]] && w'.areas[m[k]].cow {
    }
  }

  lemma PartedMirrored(vmas: map<nat, Vma>, m: map<nat, Vma>, w: World, w': World, b: Book)
    requires Parted(vmas, m, w, w') && Mirrored(ShapeOf(w), b)
    ensures Mirrored(ShapeOf(w'), b) && OtherAreasSame(vmas, w, w') && IdsGrow(b, b)
  {
  }

  method DoFork(ms: seq<MemoryManager>, phys: PhysMemoryManager, i: nat, ghost st: State, ghost b: Book)
    returns (child: MemoryManager)
    requires Agree(ms, phys, st, b) && i < |ms|
    modifies phys, phys.areas.Keys
    ensures Agree(ms + [child], phys, Step(st, ForkOf(i)).0, b)
    ensures fresh(child) && fresh(phys.areas.Keys - old(phys.areas).Keys) && phys.backs.Keys == old(phys.backs).Keys
  {
    hide Family, Holds, Sound, MapOk, Among, Layout, Sees, Mirrored, Behind, OtherAreasSame, IdsGrow, ShapeOf, Parted,
      AllCow;
    ghost var vmas, w, m := ms[i].m_vmas, phys.W(), st.mems[i];
    HoldsParts(vmas, w, ms[i].m_last_allocated, b, m);
    child := CowFamily.Fork(ms, phys, i);
    PartedBehind(vmas, child.m_vmas, w, phys.W(), b, m.cells);
    PartedMirrored(vmas, child.m_vmas, w, phys.W(), b);
    FamilyParts(ms + [child], phys, |ms|);
    forall j: nat | j < |ms|
      ensures Holds(ms[j].m_vmas, phys.W(), ms[j].m_last_allocated, b, if j == i then Forked(m) else st.mems[j])
    {
      FamilyParts(ms, phys, j);
      HoldsParts(ms[j].m_vmas, w, ms[j].m_last_allocated, b, st.mems[j]);
      forall a: int ensures Sees(ms[j].m_vmas, phys.W(), a) == Sees(ms[j].m_vmas, w, a) {
        assert Reads(ms, phys, j, a) == old(Reads(ms, phys, j, a));
      }
      if j == i {
        ReaderHolds(vmas, w, phys.W(), ms[i].m_last_allocated, b, b, m, AllCow(m.cells));
      } else {
        DifferentAreas(ms, phys, i, j);
        StillHolds(vmas, ms[j].m_vmas, w, phys.W(), ms[j].m_last_allocated, b, b, st.mems[j]);
      }
    }
    forall a: int ensures Sees(child.m_vmas, phys.W(), a) == m.at(a) {
      assert Reads(ms + [child], phys, |ms|, a) == Sees(child.m_vmas, phys.W(), a);
      HoldsAt(vmas, w, ms[i].m_last_allocated, b, m, a);
    }
    MakeHolds(child.m_vmas, phys.W(), b, Forked(m).(next := LOWER_BOUND));
  }

  lemma MakeHolds(vmas: map<nat, Vma>, w: World, b: Book, m: Memory)
    requires Sound(w) && Among(vmas, w) && MapOk(vmas) && m.areas == Layout(vmas) && Behind(vmas, w, b, m.cells)
    requires forall a: int :: Sees(vmas, w, a) == m.at(a)
    ensures Holds(vmas, w, m.next, b, m)
  {
  }

  // ---------- New areas ----------

  lemma NewAreaBehind(vmas: map<nat, Vma>, a: nat, v: Vma, w: World, w': World, b: Book, b': Book,
      cells: map<nat, Cell>)
    requires Behind(vmas, w, b, cells) && NewInWorld(v, w, w') && a !in vmas && IdsGrow(b, b')
    requires w'.areas[v].pma in b'.ids && b'.ids[w'.areas[v].pma] == b.file.next
    ensures Behind(vmas[a := v], w', b', cells[a := Cell(b.file.next, false)]) && OtherAreasSame(map[], w, w')
  {
    var more := vmas[a := v];
    forall k | k in more && k != a ensures more[k] == vmas[k] && w'.areas[more[k]] == w.areas[vmas[k]] {
    }
  }

  lemma NewAreaBooked(vmas: map<nat, Vma>, a: nat, v: Vma, w: World, w': World, b: Book, cells: map<nat, Cell>)
    returns (b': Book)
    requires Mirrored(ShapeOf(w), b) && Behind(vmas, w, b, cells) && NewInWorld(v, w, w') && a !in vmas
    ensures b'.file == NewObj(b.file, v.m_region_len)
    ensures Mirrored(ShapeOf(w'), b') && IdsGrow(b, b') && OtherAreasSame(map[], w, w')
    ensures Behind(vmas[a := v], w', b', cells[a := Cell(b.file.next, false)])
  {
    hide Mirrored, ShapeOf, Behind, OtherAreasSame;
    var p := w'.areas[v].pma;
    b' := Numbered(b, p);
    ShapeJoined(w, v, p);
    ShapeNames(w);
    NewMirrors(ShapeOf(w), p, b);
    MirrorMoved(ShapeOf(w).(pmas := ShapeOf(w).pmas + {p}), v, Area(p, false), b');
    MirrorHas(ShapeOf(w), p, b);
    NewAreaBehind(vmas, a, v, w, w', b, b', cells);
  }

  lemma ShapeNames(w: World)
    ensures ShapeOf(w).pmas == w.backs.Keys && ShapeOf(w).used == |w.fd| && ShapeOf(w).areas == w.areas
  {
  }

  method DoMap(ms: seq<MemoryManager>, phys: PhysMemoryManager, op: Op, ghost st: State, ghost b: Book)
    returns (placed: Placed, ok: bool, ghost b': Book)
    requires Agree(ms, phys, st, b) && op.MapNew? && op.i < |ms|
    modifies phys, ms[op.i]
    ensures ok <==> !Misfits(st, op)
    ensures ok ==> var (st', answer) := MapIn(st, op.i, op.addr, op.len, op.prot);
      Agree(ms, phys, st', b') && answer == Region(placed)
    ensures fresh(phys.areas.Keys - old(phys.areas).Keys) && fresh(phys.backs.Keys - old(phys.backs).Keys)
  {
    hide Family, Holds, Sound, MapOk, Among, Layout, Sees, Mirrored, Behind, OtherAreasSame, IdsGrow, ShapeOf,
      NewInWorld, Chosen, Fits, Spaced;
    ghost var w, i, m := phys.W(), op.i, st.mems[op.i];
    var vmas := ms[op.i].m_vmas;
    HoldsParts(vmas, w, ms[i].m_last_allocated, b, m);
    placed := CowFamily.NewArea(ms, phys, op.i, op.addr, op.len, op.prot);
    ok := !placed.At? || Fits(Layout(vmas), placed.addr, op.len);
    b' := b;
    if ok && placed.At? {
      ghost var v := ms[i].m_vmas[placed.addr];
      ChosenFree(m, op.addr, op.len);
      LayoutKeys(vmas);
      b' := NewAreaBooked(vmas, placed.addr, v, w, phys.W(), b, m.cells);
      FamilyParts(ms, phys, i);
      ghost var next := if op.addr == 0 then placed.addr + op.len else m.next;
      ghost var m' := WithArea(m, placed.addr, Extent(op.len, op.prot), next, b.file.next);
      forall a: int ensures Sees(ms[i].m_vmas, phys.W(), a) == m'.at(a) {
        assert Reads(ms, phys, i, a) == Sees(ms[i].m_vmas, phys.W(), a);
        HoldsAt(vmas, w, m.next, b, m, a);
      }
      MakeHolds(ms[i].m_vmas, phys.W(), b', m');
      forall j: nat | j < |ms| && j != i
        ensures Holds(ms[j].m_vmas, phys.W(), ms[j].m_last_allocated, b', st.mems[j])
      {
        DifferentAreas(ms, phys, i, j);
        FamilyParts(ms, phys, j);
        HoldsParts(ms[j].m_vmas, w, ms[j].m_last_allocated, b, st.mems[j]);
        forall a: int ensures Sees(ms[j].m_vmas, phys.W(), a) == Sees(ms[j].m_vmas, w, a) {
          assert Reads(ms, phys, j, a) == old(Reads(ms, phys, j, a));
        }
        StillHolds(map[], ms[j].m_vmas, w, phys.W(), ms[j].m_last_allocated, b, b', st.mems[j]);
      }
    } else if ok {
      forall j: nat | j < |ms| && j != i ensures Holds(ms[j].m_vmas, phys.W(), ms[j].m_last_allocated, b, st.mems[j]) {
        DifferentAreas(ms, phys, i, j);
      }
    }
  }

  // ---------- Whole runs ----------

  lemma AgreeSize(ms: seq<MemoryManager>, phys: PhysMemoryManager, st: State, b: Book)
    requires Agree(ms, phys, st, b)
    ensures |st.mems| == |ms|
  {
  }

  /** One operation gives the answer of separate memories, and agrees with them afterwards, unless
      it is a request that misfits. */
  method Do(ms: seq<MemoryManager>, phys: PhysMemoryManager, op: Op, ghost st: State, ghost b: Book)
    returns (ms': seq<MemoryManager>, answer: Answer, ok: bool, ghost b': Book)
    requires Agree(ms, phys, st, b) && (op.WriteTo? || op.ReadFrom? ==> op.start < WORD)
    modifies phys, phys.areas.Keys, phys.backs.Keys, set m | m in ms
    ensures ok <==> !Misfits(st, op)
    ensures ok ==> Agree(ms', phys, Step(st, op).0, b') && answer == Step(st, op).1
    ensures fresh(phys.areas.Keys - old(phys.areas).Keys) && fresh(phys.backs.Keys - old(phys.backs).Keys)
    ensures forall m :: m in ms' ==> m in ms || fresh(m)
  {
    hide Agree, MapIn, WriteIn, ReadIn;
    ms', answer, ok, b' := ms, NoProcess, true, b;
    AgreeSize(ms, phys, st, b);
    if op.i >= |ms| {
      return;
    }
    match op
    case ForkOf(i) =>
      var child := DoFork(ms, phys, i, st, b);
      ms', answer := ms + [child], Child;
    case MapNew(_, _, _, _) =>
      var placed;
      placed, ok, b' := DoMap(ms, phys, op, st, b);
      answer := Region(placed);
    case WriteTo(i, start, data) =>
      var done;
      done, b' := DoWrite(ms, phys, i, start, data, st, b);
      answer := Done(done);
    case ReadFrom(i, start, len) =>
      var data;
      data, b' := DoRead(ms, phys, i, start, len, st, b);
      answer := Data(data);
  }

  /** Sharing until a write is not to be told from copying at once: in any sequence of forks, new
      areas, writes and reads, whether or not they succeed, every answer is the one that separate
      memories give, up to the first request that misfits. */
  method Replay(ms: seq<MemoryManager>, phys: PhysMemoryManager, ops: seq<Op>, ghost st: State, ghost b: Book)
    returns (ms': seq<MemoryManager>, answers: seq<Answer>, ghost b': Book)
    requires Agree(ms, phys, st, b)
    requires forall k :: 0 <= k < |ops| && (ops[k].WriteTo? || ops[k].ReadFrom?) ==> ops[k].start < WORD
    modifies phys, phys.areas.Keys, phys.backs.Keys, set m | m in ms
    ensures answers == Answers(st, ops)
    ensures |answers| == |ops| ==> Agree(ms', phys, Final(st, ops), b')
    decreases |ops|
  {
    hide Agree, Step, Misfits;
    ms', answers, b' := ms, [], b;
    if ops == [] {
      return;
    }
    var ms1, answer, ok;
    ghost var b1;
    ms1, answer, ok, b1 := Do(ms, phys, ops[0], st, b);
    if ok {
      var more;
      ms', more, b' := Replay(ms1, phys, ops[1..], Step(st, ops[0]).0, b1);
      answers := [answer] + more;
    }
  }

  // A process without areas over an empty file.
  method Launch(max: nat) returns (phys: PhysMemoryManager, m: MemoryManager, ghost b: Book)
    ensures fresh(phys) && fresh(m) && phys.areas.Keys == {} && phys.backs.Keys == {} && phys.m_max_usage == max
    ensures Agree([m], phys, Start(max), b)
  {
    phys := new PhysMemoryManager(max);
    m := new MemoryManager(phys);
    b := Book(map[], File(0, max, map[], 0));
    FreshHolds(m, phys, b);
  }

  lemma FreshHolds(m: MemoryManager, phys: PhysMemoryManager, b: Book)
    requires m.Valid() && m.m_phys_mm == phys && m.m_vmas == map[] && m.m_last_allocated == LOWER_BOUND
    requires phys.areas == map[] && phys.backs == map[] && phys.memfd == []
    requires b == Book(map[], File(0, phys.m_max_usage, map[], 0))
    ensures Agree([m], phys, Start(phys.m_max_usage), b)
  {
    hide PhysMemoryManager.Valid, MemoryManager.Valid, Sound;
    m.Parts();
    NoLayout();
    assert ShapeOf(phys.W()) == Shape(map[], {}, {}, 0);
  }

  /** The same from the start of the first process. With a file as large as the operations can
      need, reads and writes go as far as the areas allow and nothing is ever lost; and a few
      million operations with requests for whole pages anywhere all take place. */
  method RunProcesses(max: nat, ops: seq<Op>)
    returns (ms: seq<MemoryManager>, phys: PhysMemoryManager, answers: seq<Answer>, ghost b: Book)
    requires forall k :: 0 <= k < |ops| && (ops[k].WriteTo? || ops[k].ReadFrom?) ==> ops[k].start < WORD
    ensures answers == Answers(Start(max), ops) && phys.m_max_usage == max
    ensures |answers| == |ops| ==> Agree(ms, phys, Final(Start(max), ops), b)
    ensures Needed([0], ops) <= max ==> AllComplete(Start(max), ops)
    ensures |ops| <= 4_000_000 && (forall k :: 0 <= k < |ops| ==> Ordinary(ops[k])) ==>
      |answers| == |ops| && forall k :: 0 <= k < |answers| && answers[k].Region? ==> answers[k].placed.At?
  {
    hide Agree, AllUnder, AtMost, Answers, Final, StateOk, Owes;
    var m;
    ghost var b0;
    phys, m, b0 := Launch(max);
    ms, answers, b := Replay([m], phys, ops, Start(max), b0);
    NothingOwed(max);
    StartsUnder(max);
    if Needed([0], ops) <= max {
      NeverShort(Start(max), [0], ops);
    }
    if |ops| <= 4_000_000 && forall k :: 0 <= k < |ops| ==> Ordinary(ops[k]) {
      AlwaysPlaced(Start(max), ops, LOWER_BOUND);
    }
  }

  lemma StartsUnder(max: nat)
    ensures AllUnder(Start(max).mems, LOWER_BOUND)
  {
  }
}
