/** Address spaces with copy-on-write areas over one shared memory file. */
module CowMemory {
  import opened ByteSeq
  import opened Wrappers
  import opened AddressSpace
  import opened CowModel

  // The memory file, shared by a family of address spaces.
  class PhysMemoryManager {
    var m_memfd_length: nat
    const m_max_usage: nat
    var memfd: seq<byte>
    // The fields of every area and backing object of the family, and whose area it is.
    ghost var areas: map<Vma, Area>
    ghost var backs: map<Pma, Back>
    ghost var owner: map<Vma, MemoryManager>

    ghost function W(): World
      reads this`areas, this`backs, this`memfd
    {
      World(areas, backs, memfd)
    }

    ghost predicate Mirrors()
      reads this`areas, this`backs, areas.Keys, backs.Keys
    {
      && (forall v :: v in areas ==> areas[v] == Area(v.m_pma, v.m_cow))
      && (forall p :: p in backs ==> backs[p] == Back(p.m_backing_off, p.m_mapped))
    }

    /** The invariant of the family: shared backing only between copy-on-write areas, and
        disjoint ranges of the file for different backing objects. */
    ghost predicate Valid()
      reads this, areas.Keys, backs.Keys
    {
      true == (Mirrors() && Sound(W()) && |memfd| == m_memfd_length && owner.Keys == areas.Keys)
    }

    lemma FieldsOf(v: Vma)
      requires Valid() && v in areas
      ensures v.m_pma == areas[v].pma && v.m_cow == areas[v].cow && v in owner && Sound(W())
      ensures v.m_pma in backs && v.m_pma.m_length == v.m_region_len && backs[v.m_pma].off == v.m_pma.m_backing_off
    {
      PmaOf(W(), v);
    }

    lemma MappedIsBacked(p: Pma)
      requires Valid() && p in backs && p.m_mapped
      ensures 0 <= p.m_backing_off == backs[p].off
    {
    }

    lemma OwnersKnown()
      requires Valid()
      ensures owner.Keys == areas.Keys
    {
    }

    constructor (max_usage: nat)
      ensures Valid() && m_max_usage == max_usage && areas == map[] && backs == map[] && memfd == []
    {
      m_max_usage := max_usage;
      m_memfd_length, memfd := 0, [];
      areas, backs, owner := map[], map[], map[];
    }

    // Ever more of the file is given out; new space is zeroed.
    method FindBackingMemSpace(length: nat) returns (off: Option<nat>)
      requires |memfd| == m_memfd_length
      modifies this`m_memfd_length, this`memfd
      ensures |memfd| == m_memfd_length
      ensures off == if |old(memfd)| + length > m_max_usage then None else Some(|old(memfd)|)
      ensures memfd == if off.None? then old(memfd) else old(memfd) + Zeros(length)
    {
      var new_off := m_memfd_length;
      var new_end := m_memfd_length + length;
      if new_end > m_max_usage {
        return None;
      }
      memfd := memfd + Zeros(length);
      m_memfd_length := new_end;
      return Some(new_off);
    }

    // memcpy to a mapped host address, here a place in the file.
    method Store(h: nat, data: seq<byte>)
      requires h + |data| <= |memfd|
      modifies this`memfd
      ensures memfd == Overwritten(old(memfd), h, data)
    {
      memfd := memfd[..h] + data + memfd[h + |data|..];
    }

    // Backing for an object that has none; the contents stay zeros.
    method GiveBacking(pma: Pma) returns (ok: bool)
      requires Valid() && pma in backs && backs[pma].off < 0
      modifies this`m_memfd_length, this`memfd, this`backs, pma`m_backing_off
      ensures Valid() && ok == (|old(memfd)| + pma.m_length <= m_max_usage)
      ensures !ok ==> W() == old(W())
      ensures ok ==> W() == Grown(old(W()), pma)
      ensures forall q :: q in backs ==> Content(W(), q) == Content(old(W()), q)
      ensures (ShapeOf(W()), ok) == Housed(ShapeOf(old(W())), pma, m_max_usage)
    {
      hide Sound, Content, ShapeOf;
      ShapeGrown(W(), pma, m_max_usage);
      GrowKeeps(W(), pma);
      NotMapped(W(), pma);
      var new_off := FindBackingMemSpace(pma.m_length);
      if new_off.None? {
        return false;
      }
      pma.m_backing_off := new_off.value;
      backs := backs[pma := Back(new_off.value, false)];
      ok := true;
    }

    // The host maps the object's range of the file.
    method MapIn(pma: Pma)
      requires Valid() && pma in backs && 0 <= backs[pma].off
      modifies this`backs, pma`m_mapped
      ensures Valid() && W() == MappedIn(old(W()), pma)
      ensures forall q :: q in backs ==> Content(W(), q) == Content(old(W()), q)
      ensures ShapeOf(W()) == ShapeOf(old(W()))
    {
      hide Sound, Content, ShapeOf;
      ShapeMapped(W(), pma);
      MapKeeps(W(), pma);
      pma.m_mapped := true;
      backs := backs[pma := backs[pma].(mapped := true)];
    }

    method MapPmaIntoHost(pma: Pma) returns (h: Option<nat>)
      requires Valid() && pma in backs
      modifies this`m_memfd_length, this`memfd, this`backs, pma
      ensures Valid() && backs.Keys == old(backs).Keys
      ensures h.Some? <==> 0 <= old(backs)[pma].off || |old(memfd)| + pma.m_length <= m_max_usage
      ensures h.None? ==> W() == old(W())
      ensures BacksGrow(old(backs), backs)
      ensures h.Some? ==> backs == old(backs)[pma := Back(h.value, true)]
      ensures h.Some? ==> |memfd| == |old(memfd)| + (if old(backs)[pma].off < 0 then pma.m_length else 0)
      ensures forall q :: q in backs ==> Content(W(), q) == Content(old(W()), q)
      ensures (ShapeOf(W()), h.Some?) == Housed(ShapeOf(old(W())), pma, m_max_usage)
    {
      hide Sound, Content, ShapeOf;
      ShapeHas(W(), pma);
      if pma.m_backing_off < 0 {
        var ok := GiveBacking(pma);
        if !ok {
          return None;
        }
      }
      MapIn(pma);
      h := Some(pma.m_backing_off);
    }
  }


  class MemoryManager {
    const m_lower_bound: nat := LOWER_BOUND
    const m_upper_bound: nat := UPPER_BOUND
    var m_last_allocated: nat
    var m_vmas: map<nat, Vma>
    const m_phys_mm: PhysMemoryManager

    ghost predicate Valid()
      reads this`m_vmas, m_phys_mm, m_phys_mm.areas.Keys, m_phys_mm.backs.Keys
    {
      true == (m_phys_mm.Valid() && MapOk(m_vmas) && Owned(m_vmas))
    }

    // Every area belongs to one address space.
    ghost predicate Owned(vmas: map<nat, Vma>)
      reads m_phys_mm`owner
    {
      OwnedBy(m_phys_mm.owner, vmas, this)
    }

    static ghost predicate OwnedBy(o: map<Vma, MemoryManager>, vmas: map<nat, Vma>, m: MemoryManager) {
      forall k :: k in vmas ==> vmas[k] in o && o[vmas[k]] == m
    }

    constructor (phys: PhysMemoryManager)
      requires phys.Valid()
      ensures Valid() && m_vmas == map[] && m_phys_mm == phys && m_last_allocated == m_lower_bound
    {
      m_phys_mm := phys;
      m_vmas := map[];
      m_last_allocated := LOWER_BOUND;
    }

    // ---------- Copying on write ----------

    // An object for the private copy, not yet the area's.
    method NewPma(length: nat) returns (pma: Pma)
      requires m_phys_mm.Valid()
      modifies m_phys_mm`backs
      ensures m_phys_mm.Valid() && fresh(pma) && pma.m_length == length
      ensures pma !in old(m_phys_mm.backs) && m_phys_mm.W() == WithPma(old(m_phys_mm.W()), pma)
      ensures Content(m_phys_mm.W(), pma) == Zeros(length)
      ensures forall q :: q in old(m_phys_mm.backs) ==> Content(m_phys_mm.W(), q) == Content(old(m_phys_mm.W()), q)
      ensures var s := ShapeOf(old(m_phys_mm.W())); ShapeOf(m_phys_mm.W()) == s.(pmas := s.pmas + {pma})
    {
      hide Sound, Content, ShapeOf;
      pma := new Pma(length);
      ShapePma(m_phys_mm.W(), pma);
      AddKeeps(m_phys_mm.W(), pma);
      m_phys_mm.backs := m_phys_mm.backs[pma := Back(-1, false)];
    }

    // The bytes of one mapped object are copied to another.
    method CopyBytes(to: Pma, from: Pma, h: nat)
      requires m_phys_mm.Valid() && to in m_phys_mm.backs && from in m_phys_mm.backs && to != from
      requires to.m_length == from.m_length && m_phys_mm.backs[to].off == h && 0 <= m_phys_mm.backs[from].off
      modifies m_phys_mm`memfd
      ensures m_phys_mm.Valid() && |m_phys_mm.memfd| == |old(m_phys_mm.memfd)|
      ensures Content(m_phys_mm.W(), to) == Content(old(m_phys_mm.W()), from)
      ensures forall q ::
        q in m_phys_mm.backs && q != to ==> Content(m_phys_mm.W(), q) == Content(old(m_phys_mm.W()), q)
      ensures ShapeOf(m_phys_mm.W()) == ShapeOf(old(m_phys_mm.W()))
    {
      hide ShapeOf;
      ghost var w := m_phys_mm.W();
      InTheFile(w, to);
      InTheFile(w, from);
      var data := m_phys_mm.memfd[from.m_backing_off..from.m_backing_off + from.m_length];
      WriteKeeps(w, to, 0, data);
      hide Sound;
      m_phys_mm.Store(h, data);
      assert m_phys_mm.W() == Written(w, to, 0, data);
      ShapeWritten(w, to, 0, data);
    }

    // The new object gets backing and the bytes of the original, or nothing.
    method FillCopy(pma: Pma, from: Pma)
      requires m_phys_mm.Valid() && pma in m_phys_mm.backs && from in m_phys_mm.backs && pma.m_length == from.m_length
      requires m_phys_mm.backs[pma].off < 0 && 0 <= m_phys_mm.backs[from].off
      requires Content(m_phys_mm.W(), pma) == Zeros(pma.m_length)
      modifies m_phys_mm`m_memfd_length, m_phys_mm`memfd, m_phys_mm`backs, pma
      ensures m_phys_mm.Valid() && m_phys_mm.backs.Keys == old(m_phys_mm.backs).Keys
      ensures BacksGrow(old(m_phys_mm.backs), m_phys_mm.backs)
      ensures 0 <= m_phys_mm.backs[pma].off <==> |old(m_phys_mm.memfd)| + pma.m_length <= m_phys_mm.m_max_usage
      ensures m_phys_mm.backs[pma].off < 0 ==> m_phys_mm.memfd == old(m_phys_mm.memfd)
      ensures forall q ::
        q in m_phys_mm.backs && q != pma ==> Content(m_phys_mm.W(), q) == Content(old(m_phys_mm.W()), q)
      ensures Content(m_phys_mm.W(), pma)
           == if m_phys_mm.backs[pma].off < 0 then Zeros(pma.m_length) else Content(old(m_phys_mm.W()), from)
      ensures (ShapeOf(m_phys_mm.W()), 0 <= m_phys_mm.backs[pma].off)
           == Housed(ShapeOf(old(m_phys_mm.W())), pma, m_phys_mm.m_max_usage)
    {
      hide Sound, Content, ShapeOf, PhysMemoryManager.Mirrors;
      var new_h_addr := m_phys_mm.MapPmaIntoHost(pma);
      if new_h_addr.None? {
        return;
      }
      CopyBytes(pma, from, new_h_addr.value);
    }

    // What a copy of the object takes of the file.
    ghost function CopyNeeds(from: Pma): nat
      requires from in m_phys_mm.backs
      reads m_phys_mm`backs
    {
      from.m_length + if m_phys_mm.backs[from].off < 0 then from.m_length else 0
    }

    // The original is mapped first, and given backing if it has none.
    method CopyFrom(pma: Pma, from: Pma)
      requires m_phys_mm.Valid() && pma in m_phys_mm.backs && from in m_phys_mm.backs && pma != from
      requires pma.m_length == from.m_length && m_phys_mm.backs[pma].off < 0
      requires Content(m_phys_mm.W(), pma) == Zeros(pma.m_length)
      modifies m_phys_mm`m_memfd_length, m_phys_mm`memfd, m_phys_mm`backs, pma, from
      ensures m_phys_mm.Valid() && m_phys_mm.backs.Keys == old(m_phys_mm.backs).Keys
      ensures BacksGrow(old(m_phys_mm.backs), m_phys_mm.backs)
      ensures 0 <= m_phys_mm.backs[pma].off <==> |old(m_phys_mm.memfd)| + old(CopyNeeds(from)) <= m_phys_mm.m_max_usage
      ensures m_phys_mm.backs[pma].off < 0 ==> |m_phys_mm.memfd| + pma.m_length > m_phys_mm.m_max_usage
      ensures forall q ::
        q in m_phys_mm.backs && q != pma ==> Content(m_phys_mm.W(), q) == Content(old(m_phys_mm.W()), q)
      ensures Content(m_phys_mm.W(), pma)
           == if m_phys_mm.backs[pma].off < 0 then Zeros(pma.m_length) else Content(old(m_phys_mm.W()), from)
      ensures var (s, ok) := Housed(ShapeOf(old(m_phys_mm.W())), from, m_phys_mm.m_max_usage);
        (ShapeOf(m_phys_mm.W()), 0 <= m_phys_mm.backs[pma].off)
          == if ok then Housed(s, pma, m_phys_mm.m_max_usage) else (s, false)
    {
      hide Sound, Content, ShapeOf, PhysMemoryManager.Valid, PhysMemoryManager.Mirrors;
      var original_h_addr := m_phys_mm.MapPmaIntoHost(from);
      if original_h_addr.None? {
        return;
      }
      FillCopy(pma, from);
    }

    /** A private copy of the area's bytes, if the file has room for it and, where the area
        was never backed, for the original too; an empty object otherwise. */
    method CopyPmaForWrite(vma: Vma) returns (pma: Pma)
      requires m_phys_mm.Valid() && vma in m_phys_mm.areas && vma.m_cow
      modifies m_phys_mm`m_memfd_length, m_phys_mm`memfd, m_phys_mm`backs, vma.m_pma
      ensures m_phys_mm.Valid() && fresh(pma) && pma.m_length == vma.m_region_len
      ensures m_phys_mm.backs.Keys == old(m_phys_mm.backs).Keys + {pma} && pma !in old(m_phys_mm.backs)
      ensures BacksGrow(old(m_phys_mm.backs), m_phys_mm.backs)
      ensures forall q :: q in old(m_phys_mm.backs) ==> Content(m_phys_mm.W(), q) == Content(old(m_phys_mm.W()), q)
      ensures 0 <= m_phys_mm.backs[pma].off <==>
        |old(m_phys_mm.memfd)| + Needs(old(m_phys_mm.W()), vma, Write) <= m_phys_mm.m_max_usage
      ensures m_phys_mm.backs[pma].off < 0 ==> |m_phys_mm.memfd| + vma.m_region_len > m_phys_mm.m_max_usage
      ensures Content(m_phys_mm.W(), pma)
           == if m_phys_mm.backs[pma].off < 0 then Zeros(pma.m_length) else Bytes(old(m_phys_mm.W()), vma)
      ensures (ShapeOf(m_phys_mm.W()), 0 <= m_phys_mm.backs[pma].off)
           == Copied(ShapeOf(old(m_phys_mm.W())), old(vma.m_pma), pma, m_phys_mm.m_max_usage)
    {
      hide Sound, Content, ShapeOf, PhysMemoryManager.Valid, PhysMemoryManager.Mirrors;
      m_phys_mm.FieldsOf(vma);
      pma := NewPma(vma.m_region_len);
      CopyFrom(pma, vma.m_pma);
    }

    // ---------- Looking areas up ----------

    /** The area holding the address: by its key, or else by a search through all areas. */
    method VmaForAddr(addr: nat) returns (vma: Vma?)
      requires MapOk(m_vmas)
      ensures vma == null <==> AreaAt(m_vmas, addr).None?
      ensures KeyAt(Layout(m_vmas), addr) == if vma == null then None else Some(vma.m_vaddr_start)
      ensures vma != null ==>
        AreaAt(m_vmas, addr) == Some(vma) && vma.m_vaddr_start in m_vmas && m_vmas[vma.m_vaddr_start] == vma
    {
      hide PageOf;
      var a_addr := PageOf(addr);
      PagesAlike(m_vmas, addr);
      vma := null;
      if a_addr in m_vmas {
        vma := m_vmas[a_addr];
      } else {
        vma := Search(a_addr);
      }
      if vma != null {
        AreaIs(m_vmas, vma.m_vaddr_start, addr);
      }
      AreaKey(m_vmas, addr);
    }

    // The slow path; a key equal to the address has been ruled out.
    method Search(a_addr: nat) returns (vma: Vma?)
      requires MapOk(m_vmas) && a_addr !in m_vmas
      ensures vma == null ==> forall k :: k in m_vmas ==> !Covers(m_vmas[k], a_addr)
      ensures vma != null ==> vma.m_vaddr_start in m_vmas && m_vmas[vma.m_vaddr_start] == vma && Covers(vma, a_addr)
    {
      vma := null;
      var rest := m_vmas.Keys;
      while rest != {}
        invariant rest <= m_vmas.Keys
        invariant forall k :: k in m_vmas && k !in rest ==> !Covers(m_vmas[k], a_addr)
        decreases |rest|
      {
        var k :| k in rest;
        rest := rest - {k};
        var start := m_vmas[k].m_vaddr_start;
        var end := start + m_vmas[k].m_region_len;
        if a_addr > start && a_addr < end {
          return m_vmas[k];
        }
      }
    }

    // ---------- Translation ----------

    // The area gets an object of its own.
    method SetPma(vma: Vma, pma: Pma)
      requires m_phys_mm.Valid() && vma in m_phys_mm.areas && pma in m_phys_mm.backs && pma.m_length == vma.m_region_len
      requires forall u :: u in m_phys_mm.areas ==> m_phys_mm.areas[u].pma != pma
      modifies m_phys_mm`areas, vma
      ensures m_phys_mm.Valid() && m_phys_mm.W() == Moved(old(m_phys_mm.W()), vma, Area(pma, false))
      ensures Bytes(m_phys_mm.W(), vma) == Content(old(m_phys_mm.W()), pma)
      ensures forall u :: u in m_phys_mm.areas && u != vma ==> Bytes(m_phys_mm.W(), u) == Bytes(old(m_phys_mm.W()), u)
      ensures var s := ShapeOf(old(m_phys_mm.W()));
        ShapeOf(m_phys_mm.W()) == s.(areas := s.areas[vma := Area(pma, false)])
    {
      hide Sound, Content, ShapeOf;
      ShapeMoved(m_phys_mm.W(), vma, Area(pma, false));
      ShapeHas(m_phys_mm.W(), pma);
      MoveKeeps(m_phys_mm.W(), vma, Area(pma, false));
      vma.m_pma := pma;
      vma.m_cow := false;
      m_phys_mm.areas := m_phys_mm.areas[vma := Area(pma, false)];
    }

    // An area that is written to for the first time since it was shared gets its own copy.
    method Unshare(vma: Vma)
      requires m_phys_mm.Valid() && vma in m_phys_mm.areas && vma.m_cow
      modifies m_phys_mm`m_memfd_length, m_phys_mm`memfd, m_phys_mm`backs, m_phys_mm`areas, vma, vma.m_pma
      ensures m_phys_mm.Valid() && m_phys_mm.areas.Keys == old(m_phys_mm.areas).Keys && !m_phys_mm.areas[vma].cow
      ensures fresh(vma.m_pma) && forall p :: p in m_phys_mm.backs && p !in old(m_phys_mm.backs) ==> fresh(p)
      ensures forall u :: u in m_phys_mm.areas && u != vma ==> Bytes(m_phys_mm.W(), u) == Bytes(old(m_phys_mm.W()), u)
      ensures Backed(m_phys_mm.W(), vma) ==> StillBacked(old(m_phys_mm.W()), m_phys_mm.W())
      ensures Backed(m_phys_mm.W(), vma) <==>
        |old(m_phys_mm.memfd)| + Needs(old(m_phys_mm.W()), vma, Write) <= m_phys_mm.m_max_usage
      ensures !Backed(m_phys_mm.W(), vma) ==> |m_phys_mm.memfd| + vma.m_region_len > m_phys_mm.m_max_usage
      ensures Bytes(m_phys_mm.W(), vma)
           == if Backed(m_phys_mm.W(), vma) then Bytes(old(m_phys_mm.W()), vma) else Zeros(vma.m_region_len)
      ensures m_phys_mm.areas[vma].pma !in old(m_phys_mm.backs)
      ensures (ShapeOf(m_phys_mm.W()), Backed(m_phys_mm.W(), vma))
           == Accessed(ShapeOf(old(m_phys_mm.W())), vma, m_phys_mm.areas[vma].pma, Write, m_phys_mm.m_max_usage)
    {
      hide Sound, Content, ShapeOf, PhysMemoryManager.Valid, PhysMemoryManager.Mirrors;
      m_phys_mm.FieldsOf(vma);
      PmasKnown(m_phys_mm.W());
      ShapeHas(m_phys_mm.W(), vma.m_pma);
      var pma := CopyPmaForWrite(vma);
      SetPma(vma, pma);
      m_phys_mm.FieldsOf(vma);
    }

    // The host address of an area, mapping it on first use.
    method HostAddr(vma: Vma) returns (h: Option<nat>)
      requires m_phys_mm.Valid() && vma in m_phys_mm.areas
      modifies m_phys_mm`m_memfd_length, m_phys_mm`memfd, m_phys_mm`backs, vma.m_pma
      ensures m_phys_mm.Valid() && m_phys_mm.backs.Keys == old(m_phys_mm.backs).Keys && Sound(m_phys_mm.W())
      ensures SameBytes(old(m_phys_mm.W()), m_phys_mm.W()) && StillBacked(old(m_phys_mm.W()), m_phys_mm.W())
      ensures h.None? ==> m_phys_mm.W() == old(m_phys_mm.W())
      ensures h.Some? <==>
        old(Backed(m_phys_mm.W(), vma)) || |old(m_phys_mm.memfd)| + vma.m_region_len <= m_phys_mm.m_max_usage
      ensures h.Some? ==> Backed(m_phys_mm.W(), vma) && h.value == m_phys_mm.backs[vma.m_pma].off
      ensures (ShapeOf(m_phys_mm.W()), h.Some?)
           == Housed(ShapeOf(old(m_phys_mm.W())), m_phys_mm.areas[vma].pma, m_phys_mm.m_max_usage)
    {
      hide Sound, Content, ShapeOf, PhysMemoryManager.Valid, PhysMemoryManager.Mirrors;
      m_phys_mm.FieldsOf(vma);
      PmasKnown(m_phys_mm.W());
      ShapeHas(m_phys_mm.W(), vma.m_pma);
      if vma.m_pma.m_mapped {
        m_phys_mm.MappedIsBacked(vma.m_pma);
        return Some(vma.m_pma.m_backing_off);
      }
      h := m_phys_mm.MapPmaIntoHost(vma.m_pma);
      m_phys_mm.FieldsOf(vma);
    }

    // The start of the area in the file, split from the others first if it is to be written to.
    method HostAddrFor(vma: Vma, access: Access) returns (h: Option<nat>)
      requires m_phys_mm.Valid() && vma in m_phys_mm.areas
      modifies m_phys_mm`m_memfd_length, m_phys_mm`memfd, m_phys_mm`backs, m_phys_mm`areas, vma, vma.m_pma
      ensures m_phys_mm.Valid() && m_phys_mm.areas.Keys == old(m_phys_mm.areas).Keys && Sound(m_phys_mm.W())
      ensures forall p :: p in m_phys_mm.backs && p !in old(m_phys_mm.backs) ==> fresh(p)
      ensures h.None? && access == Read ==> m_phys_mm.W() == old(m_phys_mm.W())
      ensures h.Some? <==> old(Room(m_phys_mm.W(), vma, access, m_phys_mm.m_max_usage))
      ensures h.Some? ==> StillBacked(old(m_phys_mm.W()), m_phys_mm.W())
      ensures h.Some? ==> Backed(m_phys_mm.W(), vma) && (access == Write ==> !m_phys_mm.areas[vma].cow)
      ensures h.Some? ==> h.value == m_phys_mm.backs[m_phys_mm.areas[vma].pma].off
      ensures forall u :: u in m_phys_mm.areas && u != vma ==> Bytes(m_phys_mm.W(), u) == Bytes(old(m_phys_mm.W()), u)
      ensures Bytes(m_phys_mm.W(), vma) == if h.None? && old(access == Write && m_phys_mm.areas[vma].cow)
        then Zeros(vma.m_region_len) else Bytes(old(m_phys_mm.W()), vma)
      ensures (ShapeOf(m_phys_mm.W()), h.Some?)
           == Accessed(ShapeOf(old(m_phys_mm.W())), vma, m_phys_mm.areas[vma].pma, access, m_phys_mm.m_max_usage)
      ensures old(access == Write && m_phys_mm.areas[vma].cow) ==> m_phys_mm.areas[vma].pma !in old(m_phys_mm.backs)
    {
      hide Sound, Content, ShapeOf, PhysMemoryManager.Valid, PhysMemoryManager.Mirrors;
      m_phys_mm.FieldsOf(vma);
      ghost var w, p := m_phys_mm.W(), vma.m_pma;
      ShapeHas(w, p);
      if access == Write && vma.m_cow {
        Unshare(vma);
        m_phys_mm.FieldsOf(vma);
        CopiedAgain(ShapeOf(w), p, vma.m_pma, m_phys_mm.m_max_usage);
      }
      m_phys_mm.FieldsOf(vma);
      h := HostAddr(vma);
      m_phys_mm.FieldsOf(vma);
    }

    // The world as this address space knows it.
    ghost function W(): World
      reads m_phys_mm`areas, m_phys_mm`backs, m_phys_mm`memfd
    {
      m_phys_mm.W()
    }

    lemma Parts()
      requires Valid()
      ensures m_phys_mm.Valid() && MapOk(m_vmas) && Owned(m_vmas) && Sound(W()) && Among(m_vmas, W())
    {
    }

    lemma FromParts()
      requires m_phys_mm.Valid() && MapOk(m_vmas) && Owned(m_vmas)
      ensures Valid()
    {
    }

    // The family after a step of this address space: the same areas belong to it.
    twostate predicate Kept()
      reads this, m_phys_mm, m_phys_mm.areas.Keys, m_phys_mm.backs.Keys
    {
      && Valid() && m_vmas == old(m_vmas) && m_phys_mm.owner == old(m_phys_mm.owner)
      && m_phys_mm.areas.Keys == old(m_phys_mm.areas).Keys
      && forall p :: p in m_phys_mm.backs && p !in old(m_phys_mm.backs) ==> fresh(p)
    }

    /** The place in the file behind an address. It succeeds exactly when the page can be
        translated; and whatever happens, every other area of the family, in this process or
        in another, holds what it held. The area itself does too, unless a split that the
        file has no room for loses it. */
    method TranslateAddr(addr: nat, access: Access) returns (h: Option<nat>)
      requires Valid() && Sound(W()) && Among(m_vmas, W())
      modifies m_phys_mm, m_phys_mm.areas.Keys, m_phys_mm.backs.Keys
      ensures Kept() && Sound(W()) && Among(m_vmas, W())
      ensures h.None? && access == Read ==> W() == old(W())
      ensures h.Some? <==> old(Translatable(m_vmas, W(), m_phys_mm.m_max_usage, addr, access))
      ensures h.Some? ==> StillBacked(old(W()), W())
      ensures h.Some? ==> var v := AreaAt(m_vmas, addr).value;
        && v in m_phys_mm.areas && Backed(W(), v) && access in v.m_prot && (access == Write ==> !m_phys_mm.areas[v].cow)
        && h.value == m_phys_mm.backs[m_phys_mm.areas[v].pma].off + (addr - v.m_vaddr_start)
      ensures forall u ::
        u in m_phys_mm.areas && AreaAt(m_vmas, addr) != Some(u) ==> Bytes(W(), u) == Bytes(old(W()), u)
      ensures AccessedAt(m_vmas, old(W()), W(), m_phys_mm.m_max_usage, addr, access, h.Some?)
      ensures SameBytes(old(W()), W()) <==> !old(Loses(m_vmas, W(), m_phys_mm.m_max_usage, addr, access))
      ensures old(SplitFails(m_vmas, W(), m_phys_mm.m_max_usage, addr, access)) ==> Emptied(m_vmas, old(W()), W(), addr)
    {
      hide Sound, Bytes, ShapeOf, Sees, SameBytes, Loses, SplitFails, Emptied, Room, Accessed, PhysMemoryManager.Valid,
        PhysMemoryManager.Mirrors, MemoryManager.Valid, MapOk, AreaAt;
      Parts();
      if !Permitted(m_vmas, addr, access) {
        NothingTranslated(m_vmas, W(), m_phys_mm.m_max_usage, addr, access);
      }
      var vma := VmaForAddr(addr);
      if vma == null {
        return None;
      }
      if access !in vma.m_prot {
        return None;
      }
      m_phys_mm.FieldsOf(vma);
      ghost var w := W();
      var h_addr := HostAddrFor(vma, access);
      FromParts();
      AccessLoses(m_vmas, w, W(), m_phys_mm.m_max_usage, addr, vma, access, h_addr.Some?);
      if h_addr.None? {
        return None;
      }
      h := Some(h_addr.value + (addr - vma.m_vaddr_start));
    }

    // memcpy through a translated address, within one page.
    method StoreAt(addr: nat, h: nat, data: seq<byte>, ghost v: Vma)
      requires Valid() && Sound(W()) && Among(m_vmas, W()) && AreaAt(m_vmas, addr) == Some(v)
      requires !m_phys_mm.areas[v].cow && Backed(W(), v)
      requires h == m_phys_mm.backs[m_phys_mm.areas[v].pma].off + (addr - v.m_vaddr_start)
      requires addr + |data| <= PageOf(addr) + PAGE_SIZE
      modifies m_phys_mm`memfd
      ensures Valid() && Sound(W()) && Wrote(m_vmas, old(W()), W(), addr, data)
      ensures forall u :: u in m_phys_mm.areas && u != v ==> Bytes(W(), u) == Bytes(old(W()), u)
      ensures StillBacked(old(W()), W()) && Backed(W(), v)
      ensures ShapeOf(W()) == ShapeOf(old(W()))
    {
      hide Sound, Content, PageOf, Sees, ShapeOf;
      ghost var w, p := W(), m_phys_mm.areas[v].pma;
      ChunkInArea(m_vmas, v, addr, |data|);
      PmaOf(w, v);
      InTheFile(w, p);
      WroteChunk(m_vmas, w, v, addr, data);
      m_phys_mm.Store(h, data);
      assert W() == Written(w, p, addr - v.m_vaddr_start, data);
      ShapeWritten(w, p, addr - v.m_vaddr_start, data);
    }

    // ---------- New areas ----------

    method NextFreeAddr(length: nat) returns (guess: nat)
      requires MapOk(m_vmas)
      ensures Spaced(Layout(m_vmas)) && guess == Scan(Layout(m_vmas), m_last_allocated, length, m_upper_bound).0
      ensures exists trail, free ::
        && Trail(Layout(m_vmas), trail, length, m_upper_bound, free)
        && trail[0] == m_last_allocated && trail[|trail| - 1] == guess
    {
      hide MapOk, Conflict, KeyAt, Trail;
      MapSpaced(m_vmas);
      ghost var areas := Layout(m_vmas);
      guess := m_last_allocated;
      var vma: Vma? := null;
      var first := true;
      while first || (vma != null && guess < m_upper_bound)
        invariant first || (vma != null && guess < m_upper_bound) ==>
          Scan(areas, guess, length, m_upper_bound) == Scan(areas, m_last_allocated, length, m_upper_bound)
        invariant !(first || (vma != null && guess < m_upper_bound)) ==>
          guess == Scan(areas, m_last_allocated, length, m_upper_bound).0
        decreases if first then 2 else if vma != null && guess < m_upper_bound then 1 else 0, m_upper_bound - guess
      {
        first := false;
        vma := Probe(guess, length);
        if vma != null {
          guess := guess + vma.m_region_len;
        }
      }
      ghost var trail := ScanTrail(areas, m_last_allocated, length, m_upper_bound);
    }

    // The area in the way of a stretch: at its first page, or at one of the pages after it.
    method Probe(guess: nat, length: nat) returns (vma: Vma?)
      requires MapOk(m_vmas)
      ensures Conflict(Layout(m_vmas), guess, length, 0) == if vma == null then None else Some(vma.m_vaddr_start)
      ensures vma != null ==> vma.m_vaddr_start in m_vmas && m_vmas[vma.m_vaddr_start] == vma
    {
      hide MapOk, AreaAt, KeyAt;
      ghost var areas := Layout(m_vmas);
      vma := VmaForAddr(guess);
      assert PageAt(guess, 0) == guess;
      if vma == null {
        var i, chunks := 1, length / PAGE_SIZE;
        while i < chunks
          invariant 1 <= i && vma == null && Conflict(areas, guess, length, i) == Conflict(areas, guess, length, 0)
          decreases chunks - i
        {
          vma := VmaForAddr(guess + i * PAGE_SIZE);
          if vma != null {
            return;
          }
          i := i + 1;
        }
        assert Conflict(areas, guess, length, i) == None;
      }
    }

    // A new area joins the family with an object of its own, which has no backing yet.
    method AddVma(start: nat, length: nat, prot: set<Access>) returns (v: Vma)
      requires m_phys_mm.Valid()
      modifies m_phys_mm`areas, m_phys_mm`backs, m_phys_mm`owner
      ensures m_phys_mm.Valid() && fresh(v) && fresh(v.m_pma)
      ensures (v.m_vaddr_start, v.m_region_len, v.m_prot) == (start, length, prot)
      ensures NewInWorld(v, old(W()), W())
      ensures v !in old(m_phys_mm.areas) && m_phys_mm.areas == old(m_phys_mm.areas)[v := Area(v.m_pma, false)]
      ensures m_phys_mm.backs == old(m_phys_mm.backs)[v.m_pma := Back(-1, false)]
      ensures m_phys_mm.owner == old(m_phys_mm.owner)[v := this]
      ensures Sound(old(W())) && Sound(W()) && SameBytes(old(W()), W()) && Bytes(W(), v) == Zeros(length)
    {
      hide Sound, Bytes, SameBytes;
      ghost var w := W();
      v := new Vma(start, length, prot);
      JoinKeeps(W(), v, v.m_pma);
      m_phys_mm.backs := m_phys_mm.backs[v.m_pma := Back(-1, false)];
      m_phys_mm.areas := m_phys_mm.areas[v := Area(v.m_pma, false)];
      m_phys_mm.owner := m_phys_mm.owner[v := this];
      assert W() == Joined(w, v, v.m_pma);
    }

    // What is the same however the address is chosen: m has a new area with an object of its own,
    // or nothing is new.
    static ghost predicate Received(m: MemoryManager, vmas: map<nat, Vma>, vmas': map<nat, Vma>, w: World, w': World,
        o: map<Vma, MemoryManager>, o': map<Vma, MemoryManager>, r: Placed, length: nat, prot: set<Access>, valid: bool)
    {
      && OwnerGrows(o, o', m)
      && (!r.At? ==> vmas' == vmas && w' == w && valid)
      && (r.At? ==>
        && r.addr in vmas' && vmas' == vmas[r.addr := vmas'[r.addr]]
        && AreaMade(vmas'[r.addr], w', r.addr, length, prot)
        && NewInWorld(vmas'[r.addr], w, w')
        && (valid <==> Fits(Layout(vmas), r.addr, length)))
    }

    lemma NothingReceived(vmas: map<nat, Vma>, w: World, o: map<Vma, MemoryManager>, r: Placed, length: nat,
        prot: set<Access>)
      requires !r.At?
      ensures Received(this, vmas, vmas, w, w, o, o, r, length, prot, true)
    {
    }

    lemma NewReceived(vmas: map<nat, Vma>, v: Vma, w: World, w': World, o: map<Vma, MemoryManager>, length: nat,
        prot: set<Access>, valid: bool)
      requires v !in o && AreaMade(v, w', v.m_vaddr_start, length, prot) && NewInWorld(v, w, w')
      requires valid <==> Fits(Layout(vmas), v.m_vaddr_start, length)
      ensures Received(this, vmas, vmas[v.m_vaddr_start := v], w, w', o, o[v := this], At(v.m_vaddr_start), length,
        prot, valid)
    {
      hide AreaMade, Fits, NewInWorld;
    }

    // A new area at a free page.
    method PlaceVma(start: nat, length: nat, prot: set<Access>, anywhere: bool)
      requires Valid() && Sound(W()) && AreaAt(m_vmas, start).None?
      modifies this, m_phys_mm`areas, m_phys_mm`backs, m_phys_mm`owner
      ensures m_phys_mm.Valid() && old(m_phys_mm.areas).Keys <= m_phys_mm.areas.Keys
      ensures Sound(W()) && SameBytes(old(W()), W())
      ensures m_last_allocated == if anywhere then start + length else old(m_last_allocated)
      ensures fresh(m_phys_mm.areas.Keys - old(m_phys_mm.areas).Keys)
      ensures fresh(m_phys_mm.backs.Keys - old(m_phys_mm.backs).Keys)
      ensures Received(this, old(m_vmas), m_vmas, old(W()), W(), old(m_phys_mm.owner), m_phys_mm.owner, At(start),
        length, prot, Valid())
    {
      hide Sound, Bytes, SameBytes, MapOk, AreaAt, Fits, PhysMemoryManager.Valid, OwnedBy, OwnerGrows, Received, Layout;
      if anywhere {
        m_last_allocated := start + length;
      }
      Parts();
      ghost var vmas, o, w := m_vmas, m_phys_mm.owner, W();
      m_phys_mm.OwnersKnown();
      var v := AddVma(start, length, prot);
      AddToMap(vmas, v);
      OwnedOne(o, vmas, start, v);
      m_vmas := m_vmas[start := v];
      NewReceived(vmas, v, w, W(), o, length, prot, Valid());
    }

    /** A new area at the address given, or where the scan ends. Only its first page is checked;
        the areas stay apart exactly when it fits as a whole. */
    method NewVma(addr: nat, length: nat, prot: set<Access>) returns (r: Placed)
      requires Valid() && Sound(W()) && Among(m_vmas, W())
      modifies this, m_phys_mm`areas, m_phys_mm`backs, m_phys_mm`owner
      ensures Spaced(Layout(old(m_vmas))) && r == Chosen(Layout(old(m_vmas)), old(m_last_allocated), addr, length)
      ensures Answered(Layout(old(m_vmas)), old(m_last_allocated), addr, length, r)
      ensures m_last_allocated == if addr == 0 && r.At? then r.addr + length else old(m_last_allocated)
      ensures m_phys_mm.Valid() && Sound(W()) && old(m_phys_mm.areas).Keys <= m_phys_mm.areas.Keys
      ensures SameBytes(old(W()), W())
      ensures fresh(m_phys_mm.areas.Keys - old(m_phys_mm.areas).Keys)
      ensures fresh(m_phys_mm.backs.Keys - old(m_phys_mm.backs).Keys)
      ensures Received(this, old(m_vmas), m_vmas, old(W()), W(), old(m_phys_mm.owner), m_phys_mm.owner, r, length,
        prot, Valid())
    {
      hide Sound, Bytes, SameBytes, MapOk, AreaAt, KeyAt, Scan, Received, Layout, MemoryManager.Valid,
        PhysMemoryManager.Valid, Answered;
      Parts();
      MapSpaced(m_vmas);
      ChosenAnswers(Layout(m_vmas), m_last_allocated, addr, length);
      SameSelf(W());
      NothingReceived(m_vmas, W(), m_phys_mm.owner, NoSpace, length, prot);
      NothingReceived(m_vmas, W(), m_phys_mm.owner, InvalidArg, length, prot);
      var dest_addr := addr;
      if addr == 0 {
        dest_addr := NextFreeAddr(length);
        if dest_addr == m_upper_bound {
          return NoSpace;
        }
      }
      var there := VmaForAddr(dest_addr);
      if there != null {
        return InvalidArg;
      }
      PlaceVma(dest_addr, length, prot, addr == 0);
      r := At(dest_addr);
    }

    /** A request for whole pages anywhere: the new area is apart from all others exactly when
        the scan found no conflict, or none lies further inside than the page that is checked
        again; and always while everything lies below the upper bound. */
    method NewVmaAnywhere(length: nat, prot: set<Access>) returns (r: Placed)
      requires Valid() && Sound(W()) && Among(m_vmas, W()) && WholePages(m_last_allocated) && WholePages(length)
      requires 0 < length
      modifies this, m_phys_mm`areas, m_phys_mm`backs, m_phys_mm`owner
      ensures m_phys_mm.Valid() && Sound(W()) && WholePages(m_last_allocated) && Spaced(Layout(old(m_vmas)))
      ensures fresh(m_phys_mm.areas.Keys - old(m_phys_mm.areas).Keys)
      ensures fresh(m_phys_mm.backs.Keys - old(m_phys_mm.backs).Keys)
      ensures Received(this, old(m_vmas), m_vmas, old(W()), W(), old(m_phys_mm.owner), m_phys_mm.owner, r, length,
        prot, Valid())
      ensures r.At? ==> var free := Scan(Layout(old(m_vmas)), old(m_last_allocated), length, m_upper_bound).1;
        Valid() <==> r.addr + length <= TOP && (free || NoneInside(Layout(old(m_vmas)), r.addr, length))
      ensures old(Low(Layout(m_vmas), m_last_allocated, m_upper_bound)) && length <= TOP / 2 ==>
        && Valid()
        && (Low(Layout(m_vmas), m_last_allocated, m_upper_bound) <==> (r.At? ==> r.addr + length <= m_upper_bound))
    {
      hide Sound, Bytes, SameBytes, MapOk, Layout, KeyAt, Scan, Fits, OwnerGrows, MemoryManager.Valid,
        PhysMemoryManager.Valid, NoneInside, Low, Spaced, NewInWorld;
      Parts();
      ghost var vmas, areas, last := m_vmas, Layout(m_vmas), m_last_allocated;
      MapSpaced(vmas);
      ScanFits(areas, last, length, m_upper_bound);
      if Low(areas, last, m_upper_bound) && length <= TOP / 2 {
        LowFits(areas, last, length, m_upper_bound);
      }
      r := NewVma(0, length, prot);
      if r.At? {
        LayoutPut(vmas, r.addr, m_vmas[r.addr]);
        FreePage(areas, r.addr);
        if Low(areas, last, m_upper_bound) {
          LowMore(areas, last, r.addr, Extent(length, prot), m_upper_bound);
        }
      }
    }

    // ---------- Forking ----------

    // The area is marked copy-on-write.
    method MarkCow(vma: Vma)
      requires m_phys_mm.Valid() && vma in m_phys_mm.areas
      modifies m_phys_mm`areas, vma`m_cow
      ensures m_phys_mm.Valid() && m_phys_mm.areas == old(m_phys_mm.areas)[vma := Area(vma.m_pma, true)]
      ensures Sound(old(W())) && Sound(W()) && SameBytes(old(W()), W())
    {
      hide Sound, Bytes, SameBytes;
      MarkKeeps(W(), vma);
      vma.m_cow := true;
      m_phys_mm.areas := m_phys_mm.areas[vma := Area(vma.m_pma, true)];
    }

    // The object that the new area starts with is dropped for the shared one.
    method CopyArea(vma: Vma) returns (cloned: Vma)
      ensures fresh(cloned) && cloned.m_pma == vma.m_pma && cloned.m_cow
      ensures (cloned.m_vaddr_start, cloned.m_region_len, cloned.m_prot)
           == (vma.m_vaddr_start, vma.m_region_len, vma.m_prot)
    {
      cloned := new Vma(vma.m_vaddr_start, vma.m_region_len, vma.m_prot);
      cloned.m_pma := vma.m_pma;
      cloned.m_cow := true;
    }

    // A second area for the object of a copy-on-write area.
    method CloneVma(vma: Vma, child: MemoryManager) returns (cloned: Vma)
      requires m_phys_mm.Valid() && vma in m_phys_mm.areas && m_phys_mm.areas[vma].cow
      modifies m_phys_mm`areas, m_phys_mm`owner
      ensures m_phys_mm.Valid() && cloned !in old(m_phys_mm.areas) && fresh(cloned)
      ensures (cloned.m_vaddr_start, cloned.m_region_len, cloned.m_prot)
           == (vma.m_vaddr_start, vma.m_region_len, vma.m_prot)
      ensures m_phys_mm.areas == old(m_phys_mm.areas)[cloned := old(m_phys_mm.areas)[vma]]
      ensures m_phys_mm.owner == old(m_phys_mm.owner)[cloned := child]
      ensures Sound(old(W())) && Sound(W()) && SameBytes(old(W()), W()) && Bytes(W(), cloned) == Bytes(old(W()), vma)
    {
      hide Sound, Bytes, SameBytes;
      ghost var w := W();
      cloned := CopyArea(vma);
      ShareKeeps(W(), vma, cloned);
      m_phys_mm.areas := m_phys_mm.areas[cloned := Area(vma.m_pma, true)];
      m_phys_mm.owner := m_phys_mm.owner[cloned := child];
      assert W() == Moved(w, cloned, Area(vma.m_pma, true));
    }

    // Areas that join the family on behalf of m; the others keep their owners.
    static ghost predicate OwnerGrows(o: map<Vma, MemoryManager>, o': map<Vma, MemoryManager>, m: MemoryManager) {
      && (forall u :: u in o ==> u in o' && o'[u] == o[u])
      && (forall u :: u in o' && u !in o ==> o'[u] == m)
    }

    lemma StillOwned(o: map<Vma, MemoryManager>, m: MemoryManager, vmas: map<nat, Vma>)
      requires OwnedBy(o, vmas, this)
      requires OwnerGrows(o, m_phys_mm.owner, m)
      ensures Owned(vmas)
    {
    }

    // The area is marked and gets a clone.
    method ShareVma(vma: Vma, child: MemoryManager) returns (cloned: Vma)
      requires m_phys_mm.Valid() && vma in m_phys_mm.areas
      modifies m_phys_mm`areas, m_phys_mm`owner, {vma}`m_cow
      ensures m_phys_mm.Valid() && cloned !in old(m_phys_mm.areas) && fresh(cloned) && cloned in m_phys_mm.areas
      ensures (cloned.m_vaddr_start, cloned.m_region_len, cloned.m_prot)
           == (vma.m_vaddr_start, vma.m_region_len, vma.m_prot)
      ensures var a := Area(old(m_phys_mm.areas)[vma].pma, true);
        m_phys_mm.areas == old(m_phys_mm.areas)[vma := a][cloned := a]
      ensures m_phys_mm.owner == old(m_phys_mm.owner)[cloned := child]
      ensures Sound(old(W())) && Sound(W()) && SameBytes(old(W()), W()) && Bytes(W(), cloned) == Bytes(old(W()), vma)
    {
      hide Sound, Bytes, SameBytes, PhysMemoryManager.Valid;
      ghost var w0 := W();
      m_phys_mm.FieldsOf(vma);
      MarkCow(vma);
      ghost var w1 := W();
      cloned := CloneVma(vma, child);
      SameThrice(w0, w1, W());
      BytesKept(w0, w1, vma);
    }

    // One area is cloned into the child.
    method CloneInto(m: MemoryManager, addr: nat)
      requires m_phys_mm.Valid() && addr in m_vmas && m_vmas[addr] in m_phys_mm.areas && m.m_phys_mm == m_phys_mm
      requires m != this
      requires m.Owned(m.m_vmas)
      modifies m_phys_mm`areas, m_phys_mm`owner, {m_vmas[addr]}`m_cow, m`m_vmas
      ensures m_phys_mm.Valid() && m_vmas == old(m_vmas) && m.Owned(m.m_vmas)
      ensures Sound(old(W())) && Sound(W()) && old(W()).areas.Keys <= W().areas.Keys && SameBytes(old(W()), W())
      ensures OwnerGrows(old(m_phys_mm.owner), m_phys_mm.owner, m)
      ensures fresh(m_phys_mm.areas.Keys - old(m_phys_mm.areas).Keys)
      ensures addr in m.m_vmas && m.m_vmas == old(m.m_vmas)[addr := m.m_vmas[addr]] && m.m_vmas[addr] in m_phys_mm.areas
      ensures var c, v := m.m_vmas[addr], m_vmas[addr];
        (c.m_vaddr_start, c.m_region_len, c.m_prot) == (v.m_vaddr_start, v.m_region_len, v.m_prot)
        && Bytes(W(), c) == Bytes(old(W()), v)
      ensures m.m_vmas[addr] !in old(m_phys_mm.areas)
      ensures var a := Area(old(m_phys_mm.areas)[m_vmas[addr]].pma, true);
        m_phys_mm.areas == old(m_phys_mm.areas)[m_vmas[addr] := a][m.m_vmas[addr] := a]
    {
      hide Sound, Bytes, SameBytes, PhysMemoryManager.Valid, OwnerGrows, OwnedBy;
      ghost var o, vmas := m_phys_mm.owner, m.m_vmas;
      m_phys_mm.OwnersKnown();
      var cloned_vma := ShareVma(m_vmas[addr], m);
      m.m_vmas := m.m_vmas[addr := cloned_vma];
      OwnerOne(o, cloned_vma, m);
      m.OwnedOne(o, vmas, addr, cloned_vma);
    }

    // All areas are cloned into a new address space.
    method CloneAreas(m: MemoryManager)
      requires m_phys_mm.Valid() && Sound(W()) && Among(m_vmas, W())
      requires m.m_phys_mm == m_phys_mm && m != this && m.m_vmas == map[] && m.Owned(m.m_vmas)
      modifies m_phys_mm`areas, m_phys_mm`owner, m_vmas.Values, m`m_vmas
      ensures m_phys_mm.Valid() && m_vmas == old(m_vmas) && Cloning(m_vmas, m.m_vmas, m_vmas.Keys, old(W()), W())
      ensures OwnerGrows(old(m_phys_mm.owner), m_phys_mm.owner, m) && m.Owned(m.m_vmas)
      ensures fresh(m_phys_mm.areas.Keys - old(m_phys_mm.areas).Keys)
    {
      hide Sound, Bytes, Among, SameBytes, Cloning, PhysMemoryManager.Valid, OwnerGrows, OwnedBy;
      ghost var w0, o := W(), m_phys_mm.owner;
      CloningStarts(m_vmas, w0);
      OwnerSame(o, m);
      var rest := m_vmas.Keys;
      ghost var done := {};
      while rest != {}
        invariant done + rest == m_vmas.Keys && done !! rest && m_vmas == old(m_vmas)
        invariant m_phys_mm.Valid() && w0.areas.Keys <= W().areas.Keys && Cloning(m_vmas, m.m_vmas, done, w0, W())
        invariant OwnerGrows(o, m_phys_mm.owner, m) && m.Owned(m.m_vmas)
        invariant fresh(m_phys_mm.areas.Keys - old(m_phys_mm.areas).Keys)
        decreases rest
      {
        var addr :| addr in rest;
        ghost var w1, o1, vmas1 := W(), m_phys_mm.owner, m.m_vmas;
        rest := rest - {addr};
        AmongHas(m_vmas, w0, addr);
        CloneInto(m, addr);
        OwnerMore(o, o1, m_phys_mm.owner, m);
        CloningStep(m_vmas, vmas1, done, w0, w1, W(), addr, m.m_vmas[addr]);
        done := done + {addr};
      }
    }

    /** The child reads what the parent reads, through areas of its own; nobody's bytes change. */
    method CloneCOW() returns (m: MemoryManager)
      requires Valid() && Sound(W()) && Among(m_vmas, W())
      modifies m_phys_mm`areas, m_phys_mm`owner, m_vmas.Values
      ensures Valid() && m.Valid() && fresh(m) && m.m_phys_mm == m_phys_mm && m_vmas == old(m_vmas)
      ensures Sound(W()) && old(W()).areas.Keys <= W().areas.Keys && SameBytes(old(W()), W())
      ensures Among(m.m_vmas, W()) && CloneOf(m_vmas, m.m_vmas, m_vmas.Keys, old(W()), W())
      ensures Among(m_vmas, W()) && SamePmas(m_vmas, old(W()), W())
      ensures OwnerGrows(old(m_phys_mm.owner), m_phys_mm.owner, m)
      ensures fresh(m_phys_mm.areas.Keys - old(m_phys_mm.areas).Keys)
      ensures Shares(m_vmas, m.m_vmas, W())
      ensures OtherAreasSame(m_vmas, old(W()), W()) && m.m_last_allocated == m_lower_bound
    {
      hide Sound, Bytes, MapOk, Shares, SamePmas, OtherAreasSame, PhysMemoryManager.Valid, SameBytes, CloneOf,
        OwnerGrows;
      Parts();
      m := new MemoryManager(m_phys_mm);
      ghost var w0, o := W(), m_phys_mm.owner;
      CloneAreas(m);
      StillOwned(o, m, m_vmas);
      CloneMapOk(m_vmas, m.m_vmas, m_vmas.Keys, w0, W());
    }

    lemma OwnerOne(o: map<Vma, MemoryManager>, c: Vma, m: MemoryManager)
      requires c !in o
      ensures OwnerGrows(o, o[c := m], m)
    {
    }

    lemma OwnedOne(o: map<Vma, MemoryManager>, vmas: map<nat, Vma>, k: nat, c: Vma)
      requires OwnedBy(o, vmas, this)
      ensures OwnedBy(o[c := this], vmas[k := c], this)
    {
    }

    lemma OwnerSame(o: map<Vma, MemoryManager>, m: MemoryManager)
      ensures OwnerGrows(o, o, m)
    {
    }

    lemma OwnerMore(o: map<Vma, MemoryManager>, o1: map<Vma, MemoryManager>, o2: map<Vma, MemoryManager>,
        m: MemoryManager)
      requires OwnerGrows(o, o1, m) && OwnerGrows(o1, o2, m)
      ensures OwnerGrows(o, o2, m)
    {
    }
  }

  // Every area ends where the next scan starts, or before.
  ghost predicate Packed(m: MemoryManager)
    reads m
  {
    var areas := Layout(m.m_vmas);
    WholePages(m.m_last_allocated) && forall k :: k in areas ==> k + areas[k].len <= m.m_last_allocated
  }

  // Then a new area goes right there.
  lemma PackedMore(areas: map<nat, Extent>, last: nat, n: nat)
    requires Spaced(areas) && WholePages(last) && WholePages(n) && 0 < n && last + n <= TOP && last < UPPER_BOUND
    requires 0 < last
    requires forall k :: k in areas ==> k + areas[k].len <= last
    ensures Chosen(areas, last, 0, n) == At(last) && Fits(areas, last, n)
  {
    ScanStays(areas, last, n, UPPER_BOUND);
  }

  // One more request anywhere.
  method PackOne(m: MemoryManager, n: nat)
    requires m.Valid() && Packed(m) && WholePages(n) && 0 < n && 0 < m.m_last_allocated < UPPER_BOUND && n <= TOP / 2
    modifies m, m.m_phys_mm
    ensures m.Valid() && Packed(m) && m.m_last_allocated == old(m.m_last_allocated) + n
    ensures fresh(m.m_phys_mm.areas.Keys - old(m.m_phys_mm.areas).Keys)
    ensures fresh(m.m_phys_mm.backs.Keys - old(m.m_phys_mm.backs).Keys)
  {
    hide Sound, Bytes, SameBytes, PhysMemoryManager.Valid, MemoryManager.Valid, Chosen, MapOk,
      MemoryManager.OwnerGrows, Spaced, Fits, NewInWorld, Layout;
    ghost var vmas, last := m.m_vmas, m.m_last_allocated;
    m.Parts();
    MapSpaced(vmas);
    PackedMore(Layout(vmas), last, n);
    var r := m.NewVma(0, n, {});
    LayoutPut(vmas, last, m.m_vmas[last]);
  }

  // Requests as system calls make them, until only one page below the upper bound is left.
  method NearlyFull() returns (m: MemoryManager)
    ensures fresh(m) && fresh(m.m_phys_mm) && m.Valid() && Packed(m) && m.m_last_allocated == UPPER_BOUND - PAGE_SIZE
  {
    hide MemoryManager.Valid, PhysMemoryManager.Valid;
    var phys := new PhysMemoryManager(0);
    m := new MemoryManager(phys);
    NoLayout();
    while m.m_last_allocated < UPPER_BOUND - PAGE_SIZE
      invariant fresh(m) && fresh(m.m_phys_mm) && m.Valid() && Packed(m)
      invariant LOWER_BOUND <= m.m_last_allocated <= UPPER_BOUND - PAGE_SIZE
      decreases UPPER_BOUND - m.m_last_allocated
    {
      var left := UPPER_BOUND - PAGE_SIZE - m.m_last_allocated;
      PackOne(m, if left < MAX_MAP_LENGTH then left else MAX_MAP_LENGTH);
    }
  }

  lemma NoLayout()
    ensures Layout(map[]) == map[]
  {
  }

  // And an area has been placed beyond it.
  method PlacedBeyond() returns (m: MemoryManager)
    ensures fresh(m) && fresh(m.m_phys_mm) && m.Valid() && m.m_last_allocated == UPPER_BOUND - PAGE_SIZE
    ensures var k, areas := UPPER_BOUND + 2 * PAGE_SIZE, Layout(m.m_vmas);
      && k in m.m_vmas && m.m_vmas[k].m_region_len == 2 * PAGE_SIZE
      && forall j :: j in areas && j != k ==> j + areas[j].len <= UPPER_BOUND - PAGE_SIZE
  {
    hide Sound, Bytes, SameBytes, PhysMemoryManager.Valid, MemoryManager.Valid, Scan, MapOk, MemoryManager.OwnerGrows,
      Spaced, NewInWorld, Layout;
    m := NearlyFull();
    m.Parts();
    MapSpaced(m.m_vmas);
    ghost var vmas, areas := m.m_vmas, Layout(m.m_vmas);
    var k := UPPER_BOUND + 2 * PAGE_SIZE;
    assert KeyAt(areas, k).None? && FreeRange(areas, k, 2 * PAGE_SIZE);
    var r := m.NewVma(k, 2 * PAGE_SIZE, {});
    LayoutPut(vmas, k, m.m_vmas[k]);
  }

  /** Requests that a manager accepts although the last one makes its areas overlap: the scan
      stops on a conflict at the upper bound, beyond which an area has been placed. None asks for
      more than a system call allows. */
  method OverlapReached() returns (m: MemoryManager, r: Placed)
    ensures m.m_phys_mm.Valid() && !m.Valid()
    ensures var k := UPPER_BOUND + 2 * PAGE_SIZE;
      r.At? && r.addr != k && r.addr in m.m_vmas && k in m.m_vmas && !Separate(m.m_vmas[r.addr], m.m_vmas[k])
  {
    hide Sound, Bytes, SameBytes, PhysMemoryManager.Valid, MemoryManager.Valid, Scan, MapOk, MemoryManager.OwnerGrows,
      Spaced, NewInWorld;
    m := PlacedBeyond();
    m.Parts();
    MapSpaced(m.m_vmas);
    ghost var vmas := m.m_vmas;
    ScanCanOverlap(Layout(vmas), UPPER_BOUND);
    StartsThere(vmas, UPPER_BOUND + 2 * PAGE_SIZE);
    r := m.NewVma(0, 4 * PAGE_SIZE, {});
  }

  lemma StartsThere(vmas: map<nat, Vma>, k: nat)
    requires MapOk(vmas) && k in vmas
    ensures vmas[k].m_vaddr_start == k
  {
  }
}
