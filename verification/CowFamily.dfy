/** A family of forked processes: each behaves as if it had a memory of its own. */
module CowFamily {
  import opened AddressSpace
  import opened ByteSeq
  import opened CowLedger
  import opened CowMemory
  import opened CowModel
  import opened Numbers
  import opened SeparateMemory
  import opened UserMemory
  import opened Wrappers

  // Different address spaces over one memory file, each valid.
  ghost predicate Family(ms: seq<MemoryManager>, phys: PhysMemoryManager)
    reads phys, phys.areas.Keys, phys.backs.Keys, ms
  {
    && phys.Valid() && Sound(phys.W())
    && Distinct(ms, phys)
    && (forall i :: 0 <= i < |ms| ==> ms[i].Valid() && Among(ms[i].m_vmas, phys.W()))
  }

  // What process i reads at address a.
  ghost function Reads(ms: seq<MemoryManager>, phys: PhysMemoryManager, i: nat, a: int): Option<byte>
    requires Family(ms, phys) && i < |ms|
    reads phys, phys.areas.Keys, phys.backs.Keys, ms
  {
    Sees(ms[i].m_vmas, phys.W(), a)
  }

  // What is known of the address spaces but i when the world is w and o says whose area is whose.
  ghost predicate Known(ms: seq<MemoryManager>, i: nat, w: World, o: map<Vma, MemoryManager>)
    reads ms
  {
    forall j :: 0 <= j < |ms| && j != i ==>
      MapOk(ms[j].m_vmas) && Among(ms[j].m_vmas, w) && MemoryManager.OwnedBy(o, ms[j].m_vmas, ms[j])
  }

  lemma FamilyKnown(ms: seq<MemoryManager>, phys: PhysMemoryManager, i: nat)
    requires Family(ms, phys)
    ensures Known(ms, i, phys.W(), phys.owner)
    ensures i < |ms| ==> MapOk(ms[i].m_vmas) && MemoryManager.OwnedBy(phys.owner, ms[i].m_vmas, ms[i])
  {
    hide PhysMemoryManager.Valid, MapOk, Sound, MemoryManager.OwnedBy, MemoryManager.Valid;
    forall j | 0 <= j < |ms|
      ensures MapOk(ms[j].m_vmas) && Among(ms[j].m_vmas, phys.W())
      ensures MemoryManager.OwnedBy(phys.owner, ms[j].m_vmas, ms[j])
    {
      ms[j].Parts();
    }
  }

  // Different address spaces have no area in common.
  lemma NoCommonArea(o: map<Vma, MemoryManager>, m: MemoryManager, v: map<nat, Vma>, m': MemoryManager,
      v': map<nat, Vma>)
    requires m != m' && MemoryManager.OwnedBy(o, v, m) && MemoryManager.OwnedBy(o, v', m')
    ensures v.Values !! v'.Values
  {
    forall x | x in v.Values ensures x !in v'.Values {
      var k :| k in v && v[k] == x;
      assert o[x] == m;
    }
  }

  ghost predicate SeesTheSame(vmas: map<nat, Vma>, w: World, w': World) {
    && Sound(w) && Sound(w') && Among(vmas, w) && Among(vmas, w')
    && forall a: int :: Sees(vmas, w', a) == Sees(vmas, w, a)
  }

  lemma OtherKept(mine: map<nat, Vma>, theirs: map<nat, Vma>, w: World, w': World)
    requires Sound(w) && Sound(w') && w.areas.Keys <= w'.areas.Keys && Among(theirs, w)
    requires OthersKept(mine, w, w') && mine.Values !! theirs.Values
    ensures SeesTheSame(theirs, w, w')
  {
    hide Sound, Sees, OthersKept;
    forall a: int ensures Among(theirs, w') && Sees(theirs, w', a) == Sees(theirs, w, a) {
      OtherSeesTheSame(mine, theirs, w, w', a);
    }
  }

  // Nothing at all has changed for a process when no bytes have.
  lemma SameForAll(vmas: map<nat, Vma>, w: World, w': World)
    requires Sound(w) && Sound(w') && w.areas.Keys <= w'.areas.Keys && SameBytes(w, w')
    ensures OthersKept(vmas, w, w')
  {
    hide Sound, Bytes;
  }

  // All processes but i read what they read.
  twostate predicate OthersRead(ms: seq<MemoryManager>, phys: PhysMemoryManager, i: nat)
    requires old(Family(ms, phys)) && Family(ms, phys)
    reads phys, phys.areas.Keys, phys.backs.Keys, ms
  {
    forall j: nat, a: int :: j < |ms| && j != i ==> Reads(ms, phys, j, a) == old(Reads(ms, phys, j, a))
  }

  // One process takes a step: the family stays one, and the others notice nothing.
  lemma StepOfOne(ms: seq<MemoryManager>, phys: PhysMemoryManager, i: nat, mine: map<nat, Vma>, w: World,
      o: map<Vma, MemoryManager>, g: MemoryManager)
    requires Known(ms, i, w, o) && i < |ms| && ms[i].Valid() && Distinct(ms, phys)
    requires MemoryManager.OwnedBy(o, mine, ms[i])
    requires MemoryManager.OwnerGrows(o, phys.owner, g)
    requires phys.Valid() && Sound(w) && Sound(phys.W()) && w.areas.Keys <= phys.W().areas.Keys
    requires OthersKept(mine, w, phys.W())
    ensures Family(ms, phys)
    ensures forall j :: 0 <= j < |ms| && j != i ==> SeesTheSame(ms[j].m_vmas, w, phys.W())
  {
    hide Sound, Sees, MapOk, PhysMemoryManager.Valid, OthersKept, MemoryManager.OwnerGrows, MemoryManager.OwnedBy,
      SeesTheSame;
    ms[i].Parts();
    forall j | 0 <= j < |ms| && j != i
      ensures ms[j].Valid() && SeesTheSame(ms[j].m_vmas, w, phys.W()) && Among(ms[j].m_vmas, phys.W())
    {
      NoCommonArea(o, ms[i], mine, ms[j], ms[j].m_vmas);
      OtherKept(mine, ms[j].m_vmas, w, phys.W());
      SeesAmong(ms[j].m_vmas, w, phys.W());
      ms[j].StillOwned(o, g, ms[j].m_vmas);
    }
  }

  lemma SeesAmong(vmas: map<nat, Vma>, w: World, w': World)
    requires SeesTheSame(vmas, w, w')
    ensures Among(vmas, w')
  {
  }

  ghost predicate Distinct(ms: seq<MemoryManager>, phys: PhysMemoryManager) {
    && (forall i :: 0 <= i < |ms| ==> ms[i].m_phys_mm == phys)
    && (forall i, j :: 0 <= i < j < |ms| ==> ms[i] != ms[j])
  }

  // What the writer sees after so many bytes: they are there, and the area of a page for which a
  // split has failed is empty.
  ghost predicate WriterSees(vmas: map<nat, Vma>, w: World, w': World, start: nat, data: seq<byte>, lost: bool)
    requires Sound(w) && Among(vmas, w) && Sound(w') && Among(vmas, w')
  {
    forall a: int :: Sees(vmas, w', a) ==
      if lost && AreaAt(vmas, start + |data|).Some? && Covers(AreaAt(vmas, start + |data|).value, a) then Some(0)
      else if start <= a < start + |data| then Some(data[a - start])
      else Sees(vmas, w, a)
  }

  lemma WriterKeeps(vmas: map<nat, Vma>, w: World, at: World, w': World, start: nat, data: seq<byte>)
    requires Sound(w) && Sound(at) && Sound(w') && Among(vmas, w) && Among(vmas, at) && Among(vmas, w')
    requires at.areas.Keys <= w'.areas.Keys && SameBytes(at, w') && Wrote(vmas, w, at, start, data)
    ensures WriterSees(vmas, w, w', start, data, false)
  {
    hide Sound, Sees, SameBytes;
    SameSight(vmas, at, w');
  }

  lemma WriterLoses(vmas: map<nat, Vma>, w: World, at: World, w': World, start: nat, data: seq<byte>)
    requires Sound(w) && Sound(at) && Sound(w') && Among(vmas, w) && Among(vmas, at) && Among(vmas, w')
    requires Emptied(vmas, at, w', start + |data|) && Wrote(vmas, w, at, start, data)
    ensures WriterSees(vmas, w, w', start, data, true)
  {
    hide Sound, Sees;
  }

  /** A write: it stores all bytes up to the first page that cannot be translated, and all of
      them when there is none; the writer sees those bytes and everything else as before, but for
      zeros in the area of a page that could not be split off. No other process sees a difference. */
  method Write(ms: seq<MemoryManager>, phys: PhysMemoryManager, i: nat, start: nat, src: seq<byte>,
      ghost b: Book, ghost cells: map<nat, Cell>)
    returns (ok: bool, ghost done: nat, ghost lost: bool, ghost b': Book)
    requires Family(ms, phys) && i < |ms| && start < WORD
    requires Booked(ms[i].m_vmas, phys.W(), b, cells) && b.file.max == phys.m_max_usage
    modifies phys, phys.areas.Keys, phys.backs.Keys
    ensures Family(ms, phys) && OthersRead(ms, phys, i)
    ensures phys.areas.Keys == old(phys.areas).Keys && fresh(phys.backs.Keys - old(phys.backs).Keys)
    ensures done <= |src| && (ok <==> done == |src|)
    ensures WriterSees(ms[i].m_vmas, old(phys.W()), phys.W(), start, src[..done], lost)
    ensures Ended(ms[i].m_vmas, old(phys.W()), b, cells, phys.W(), b', start, |src|, Access.Write, done, lost)
  {
    hide Sound, Sees, MapOk, PhysMemoryManager.Valid, OthersKept, MemoryManager.Valid, Bytes, Resident, Translatable,
      Loses, SplitFails, Emptied, Wrote, WriterSees, Booked, Ended;
    FamilyKnown(ms, phys, i);
    ghost var vmas, w, o, at := ms[i].m_vmas, phys.W(), phys.owner, phys.W();
    ok, done, at, b' := WriteToUser(ms[i], start, src, b, cells);
    ms[i].Parts();
    ms[i].OwnerSame(o, ms[i]);
    StepOfOne(ms, phys, i, vmas, w, o, ms[i]);
    lost := !ok && SplitFails(vmas, at, phys.m_max_usage, start + done, Access.Write);
    if lost {
      WriterLoses(vmas, w, at, phys.W(), start, src[..done]);
    } else {
      if ok {
        SameSelf(at);
      } else {
        NotLost(vmas, at, phys.m_max_usage, start + done);
      }
      WriterKeeps(vmas, w, at, phys.W(), start, src[..done]);
    }
  }

  lemma NotLost(vmas: map<nat, Vma>, w: World, max: nat, a: nat)
    requires Sound(w) && Among(vmas, w) && !SplitFails(vmas, w, max, a, Access.Write)
    ensures !Loses(vmas, w, max, a, Access.Write)
  {
    hide SplitFails, Loses;
    if Loses(vmas, w, max, a, Access.Write) {
      LosesBySplit(vmas, w, max, a, Access.Write);
    }
  }

  /** A read gives what the process reads, up to the first page that cannot be translated, and
      changes nothing for anybody. */
  method Read(ms: seq<MemoryManager>, phys: PhysMemoryManager, i: nat, start: nat, len: nat,
      ghost b: Book, ghost cells: map<nat, Cell>)
    returns (dest: seq<byte>, left: nat, ghost b': Book)
    requires Family(ms, phys) && i < |ms| && start < WORD
    requires Booked(ms[i].m_vmas, phys.W(), b, cells) && b.file.max == phys.m_max_usage
    modifies phys, phys.areas.Keys, phys.backs.Keys
    ensures Family(ms, phys) && OthersRead(ms, phys, |ms|)
    ensures phys.areas.Keys == old(phys.areas).Keys && fresh(phys.backs.Keys - old(phys.backs).Keys)
    ensures left <= len && |dest| == len - left
    ensures forall k :: 0 <= k < |dest| ==> old(Reads(ms, phys, i, start + k)) == Some(dest[k])
    ensures Ended(ms[i].m_vmas, old(phys.W()), b, cells, phys.W(), b', start, len, Access.Read, |dest|, false)
  {
    hide Sound, Sees, MapOk, PhysMemoryManager.Valid, OthersKept, MemoryManager.Valid, Bytes, Resident, Translatable,
      SameBytes, Booked, Ended;
    FamilyKnown(ms, phys, i);
    ghost var w, o := phys.W(), phys.owner;
    dest, left, b' := ReadFromUser(ms[i], start, len, b, cells);
    ms[i].Parts();
    SameForAll(ms[i].m_vmas, w, phys.W());
    ms[i].OwnerSame(o, ms[i]);
    StepOfOne(ms, phys, i, ms[i].m_vmas, w, o, ms[i]);
    SameSight(ms[i].m_vmas, w, phys.W());
  }

  // Parent and child have the same objects, both copy-on-write; everybody else has what he had.
  ghost predicate Parted(vmas: map<nat, Vma>, m: map<nat, Vma>, w: World, w': World) {
    && m.Keys == vmas.Keys && Shares(vmas, m, w') && Among(vmas, w) && Among(vmas, w') && SamePmas(vmas, w, w')
    && OtherAreasSame(vmas, w, w') && w'.backs == w.backs && w'.fd == w.fd
  }

  /** A fork: the new process reads everything its parent reads, and nothing changes for the
      parent or the others. */
  method Fork(ms: seq<MemoryManager>, phys: PhysMemoryManager, i: nat) returns (child: MemoryManager)
    requires Family(ms, phys) && i < |ms|
    modifies phys, phys.areas.Keys
    ensures Family(ms, phys) && OthersRead(ms, phys, |ms|) && Family(ms + [child], phys)
    ensures fresh(child) && fresh(phys.areas.Keys - old(phys.areas).Keys) && phys.backs.Keys == old(phys.backs).Keys
    ensures forall a: int :: Reads(ms + [child], phys, |ms|, a) == old(Reads(ms, phys, i, a))
    ensures Layout(child.m_vmas) == Layout(ms[i].m_vmas) && child.m_last_allocated == LOWER_BOUND
    ensures Parted(ms[i].m_vmas, child.m_vmas, old(phys.W()), phys.W())
  {
    hide Sound, Sees, MapOk, PhysMemoryManager.Valid, OthersKept, MemoryManager.Valid, Bytes, SameBytes, CloneOf,
      MemoryManager.OwnerGrows, Shares, SamePmas, OtherAreasSame;
    FamilyKnown(ms, phys, i);
    ghost var w, o := phys.W(), phys.owner;
    var m := ms[i];
    ValuesKnown(m);
    child := m.CloneCOW();
    m.Parts();
    SameForAll(m.m_vmas, w, phys.W());
    StepOfOne(ms, phys, i, m.m_vmas, w, o, child);
    SameSight(m.m_vmas, w, phys.W());
    forall a: int ensures Sees(child.m_vmas, phys.W(), a) == Sees(m.m_vmas, w, a) {
      CloneSeesTheSame(m.m_vmas, child.m_vmas, w, phys.W(), a);
    }
    CloneLayout(m.m_vmas, child.m_vmas, w, phys.W());
    child.Parts();
  }

  lemma ValuesKnown(m: MemoryManager)
    requires m.Valid()
    ensures m.m_vmas.Values <= m.m_phys_mm.areas.Keys
  {
    m.Parts();
    forall v | v in m.m_vmas.Values ensures v in m.m_phys_mm.areas {
      var k :| k in m.m_vmas && m.m_vmas[k] == v;
      AmongHas(m.m_vmas, m.W(), k);
    }
  }

  lemma CloneLayout(vmas: map<nat, Vma>, m: map<nat, Vma>, w: World, w': World)
    requires Sound(w) && Among(vmas, w) && Sound(w') && Among(m, w') && CloneOf(vmas, m, vmas.Keys, w, w')
    ensures Layout(m) == Layout(vmas) && m.Keys == vmas.Keys
  {
    hide Sound, Bytes;
  }

  // The new area reads as zeros, and everything else as before.
  lemma NewAreaSeen(vmas: map<nat, Vma>, v: Vma, w: World, w': World, a: nat, n: nat, prot: set<Access>, b: int)
    requires MapOk(vmas) && Sound(w) && Among(vmas, w) && Sound(w') && w.areas.Keys <= w'.areas.Keys && SameBytes(w, w')
    requires AreaMade(v, w', a, n, prot) && MapOk(vmas[a := v]) && a !in vmas
    ensures Among(vmas[a := v], w')
    ensures Sees(vmas[a := v], w', b) == if a <= b < a + n then Some(0) else Sees(vmas, w, b)
  {
    hide Sound, Bytes, MapOk;
    var vmas' := vmas[a := v];
    assert vmas'[a] == v && forall k :: k in vmas ==> vmas'[k] == vmas[k];
    if a <= b < a + n {
      AreaIs(vmas', a, b);
    } else if AreaAt(vmas, b).Some? {
      var k :| k in vmas && vmas[k] == AreaAt(vmas, b).value;
      AreaIs(vmas', k, b);
    }
  }

  lemma NewAreaMap(vmas: map<nat, Vma>, v: Vma)
    requires MapOk(vmas) && AreaAt(vmas, v.m_vaddr_start).None? && Fits(Layout(vmas), v.m_vaddr_start, v.m_region_len)
    ensures MapOk(vmas[v.m_vaddr_start := v]) && v.m_vaddr_start !in vmas
  {
    AddToMap(vmas, v);
    assert forall k :: k in vmas ==> Covers(vmas[k], k);
  }

  /** A new area: if it fits, the family stays one, the process reads zeros there and everything
      else as before, and the others notice nothing. */
  method NewArea(ms: seq<MemoryManager>, phys: PhysMemoryManager, i: nat, addr: nat, len: nat, prot: set<Access>)
    returns (r: Placed)
    requires Family(ms, phys) && i < |ms|
    modifies phys, ms[i]
    ensures var areas := old(Layout(ms[i].m_vmas));
      && Spaced(areas) && r == Chosen(areas, old(ms[i].m_last_allocated), addr, len)
      && Layout(ms[i].m_vmas) == (if r.At? then areas[r.addr := Extent(len, prot)] else areas)
      && (!Family(ms, phys) <==> r.At? && !Fits(areas, r.addr, len))
    ensures ms[i].m_last_allocated == if addr == 0 && r.At? then r.addr + len else old(ms[i].m_last_allocated)
    ensures fresh(phys.areas.Keys - old(phys.areas).Keys) && fresh(phys.backs.Keys - old(phys.backs).Keys)
    ensures !r.At? ==> ms[i].m_vmas == old(ms[i].m_vmas) && phys.W() == old(phys.W())
    ensures r.At? ==> r.addr in ms[i].m_vmas && ms[i].m_vmas == old(ms[i].m_vmas)[r.addr := ms[i].m_vmas[r.addr]]
    ensures r.At? ==> var v := ms[i].m_vmas[r.addr];
      NewInWorld(v, old(phys.W()), phys.W()) && v.m_region_len == len
    ensures Family(ms, phys) ==> OthersRead(ms, phys, i)
    ensures Family(ms, phys) ==> forall a: int ::
      Reads(ms, phys, i, a) == if r.At? && r.addr <= a < r.addr + len then Some(0) else old(Reads(ms, phys, i, a))
  {
    hide Sound, Sees, MapOk, PhysMemoryManager.Valid, OthersKept, MemoryManager.Valid, Bytes, SameBytes,
      MemoryManager.OwnerGrows, Chosen, Fits, Layout, NewInWorld, Spaced;
    FamilyKnown(ms, phys, i);
    ghost var m, vmas, w, o := ms[i], ms[i].m_vmas, phys.W(), phys.owner;
    r := ms[i].NewVma(addr, len, prot);
    SameForAll(vmas, w, phys.W());
    if r.At? {
      LayoutPut(vmas, r.addr, m.m_vmas[r.addr]);
    }
    if m.Valid() {
      m.Parts();
      StepOfOne(ms, phys, i, vmas, w, o, m);
      if r.At? {
        ChosenIsFree(vmas, old(m.m_last_allocated), addr, len);
        NewAreaMap(vmas, m.m_vmas[r.addr]);
        forall a: int
          ensures Sees(m.m_vmas, phys.W(), a) == if r.addr <= a < r.addr + len then Some(0) else Sees(vmas, w, a)
        {
          NewAreaSeen(vmas, m.m_vmas[r.addr], w, phys.W(), r.addr, len, prot, a);
        }
      }
    }
  }

  lemma ChosenIsFree(vmas: map<nat, Vma>, last: nat, addr: nat, n: nat)
    requires MapOk(vmas) && Spaced(Layout(vmas)) && Chosen(Layout(vmas), last, addr, n).At?
    ensures AreaAt(vmas, Chosen(Layout(vmas), last, addr, n).addr).None?
  {
    hide MapOk, Spaced, Layout, Scan;
    AreaKey(vmas, Chosen(Layout(vmas), last, addr, n).addr);
  }
}
