/** What the areas of a family of forked address spaces hold: areas refer to backing objects,
    backing objects to ranges of one memory file. */
module CowModel {
  import opened ByteSeq
  import opened Wrappers
  import opened AddressSpace

  // A stretch of the memory file, given out on first use.
  class Pma {
    const m_length: nat
    // Negative while there is no backing.
    var m_backing_off: int
    // Whether the host has mapped it.
    var m_mapped: bool

    constructor (length: nat)
      ensures m_length == length && m_backing_off == -1 && !m_mapped
    {
      m_length := length;
      m_backing_off := -1;
      m_mapped := false;
    }
  }

  // An area of one address space.
  class Vma {
    const m_vaddr_start: nat
    const m_region_len: nat
    const m_prot: set<Access>
    var m_cow: bool
    var m_pma: Pma

    constructor (start: nat, len: nat, prot: set<Access>)
      ensures (m_vaddr_start, m_region_len, m_prot, m_cow) == (start, len, prot, false)
      ensures fresh(m_pma) && m_pma.m_length == len && m_pma.m_backing_off == -1 && !m_pma.m_mapped
    {
      m_vaddr_start := start;
      m_region_len := len;
      m_prot := prot;
      m_cow := false;
      m_pma := new Pma(len);
    }
  }

  // The mutable fields of areas and of backing objects.
  datatype Area = Area(pma: Pma, cow: bool)
  datatype Back = Back(off: int, mapped: bool)

  datatype World = World(areas: map<Vma, Area>, backs: map<Pma, Back>, fd: seq<byte>)

  // ---------- The invariant ----------

  ghost predicate EachHasPma(areas: map<Vma, Area>, backs: map<Pma, Back>) {
    forall v :: v in areas ==> areas[v].pma in backs && areas[v].pma.m_length == v.m_region_len
  }

  // Only areas marked copy-on-write share a backing object.
  ghost predicate SharedIsCow(areas: map<Vma, Area>) {
    forall u, v :: u in areas && v in areas && u != v && areas[u].pma == areas[v].pma ==> areas[u].cow && areas[v].cow
  }

  ghost predicate InFile(backs: map<Pma, Back>, size: nat) {
    forall p :: p in backs ==>
      (0 <= backs[p].off && backs[p].off + p.m_length <= size) || (backs[p].off == -1 && !backs[p].mapped)
  }

  // Different backing objects have different bytes of the file.
  ghost predicate Apart(backs: map<Pma, Back>) {
    forall p, q :: p in backs && q in backs && p != q && 0 <= backs[p].off && 0 <= backs[q].off ==>
      backs[p].off + p.m_length <= backs[q].off || backs[q].off + q.m_length <= backs[p].off
  }

  ghost predicate Sound(w: World) {
    true == (EachHasPma(w.areas, w.backs) && SharedIsCow(w.areas) && InFile(w.backs, |w.fd|) && Apart(w.backs))
  }

  // ---------- Contents ----------

  // An object without backing reads as zeros: it gets zeroed space when it is first used.
  ghost function Content(w: World, p: Pma): (s: seq<byte>)
    requires Sound(w) && p in w.backs
    ensures |s| == p.m_length
  {
    var off := w.backs[p].off;
    if off < 0 then Zeros(p.m_length) else w.fd[off..off + p.m_length]
  }

  ghost function Bytes(w: World, v: Vma): (s: seq<byte>)
    requires Sound(w) && v in w.areas
    ensures |s| == v.m_region_len
  {
    Content(w, w.areas[v].pma)
  }

  function Overwritten(s: seq<byte>, i: nat, data: seq<byte>): (r: seq<byte>)
    requires i + |data| <= |s|
    ensures |r| == |s|
  {
    s[..i] + data + s[i + |data|..]
  }

  // ---------- Steps ----------

  ghost function Grown(w: World, p: Pma): World {
    w.(backs := w.backs[p := Back(|w.fd|, false)], fd := w.fd + Zeros(p.m_length))
  }

  ghost function MappedIn(w: World, p: Pma): World
    requires p in w.backs
  {
    w.(backs := w.backs[p := w.backs[p].(mapped := true)])
  }

  ghost function WithPma(w: World, p: Pma): World {
    w.(backs := w.backs[p := Back(-1, false)])
  }

  ghost function Written(w: World, p: Pma, i: nat, data: seq<byte>): World
    requires Sound(w) && p in w.backs && 0 <= w.backs[p].off && i + |data| <= p.m_length
  {
    w.(fd := Overwritten(w.fd, w.backs[p].off + i, data))
  }

  ghost function Moved(w: World, v: Vma, a: Area): World {
    w.(areas := w.areas[v := a])
  }

  // Backing for an object that has none.
  lemma GrowKeeps(w: World, p: Pma)
    requires Sound(w) && p in w.backs && w.backs[p].off < 0
    ensures Sound(Grown(w, p)) && forall q :: q in w.backs ==> Content(Grown(w, p), q) == Content(w, q)
  {
    var w' := Grown(w, p);
    assert (w.fd + Zeros(p.m_length))[|w.fd|..|w.fd| + p.m_length] == Zeros(p.m_length);
    forall q | q in w.backs ensures Content(w', q) == Content(w, q) {
      var off := w.backs[q].off;
      if 0 <= off {
        assert w'.fd[off..off + q.m_length] == w.fd[off..off + q.m_length];
      }
    }
  }

  lemma MapSound(w: World, p: Pma)
    requires Sound(w) && p in w.backs && 0 <= w.backs[p].off
    ensures Sound(MappedIn(w, p))
  {
    hide SharedIsCow;
  }

  lemma MapKeeps(w: World, p: Pma)
    requires Sound(w) && p in w.backs && 0 <= w.backs[p].off
    ensures Sound(MappedIn(w, p)) && forall q :: q in w.backs ==> Content(MappedIn(w, p), q) == Content(w, q)
  {
    MapSound(w, p);
    forall q | q in w.backs ensures Content(MappedIn(w, p), q) == Content(w, q) {
      assert MappedIn(w, p).backs[q].off == w.backs[q].off;
    }
    hide EachHasPma, SharedIsCow, Apart;
  }

  lemma AddKeeps(w: World, p: Pma)
    requires Sound(w) && p !in w.backs
    ensures Sound(WithPma(w, p)) && Content(WithPma(w, p), p) == Zeros(p.m_length)
    ensures forall q :: q in w.backs ==> Content(WithPma(w, p), q) == Content(w, q)
  {
  }

  lemma OverwriteInside(s: seq<byte>, at: nat, len: nat, i: nat, data: seq<byte>)
    requires at + len <= |s| && i + |data| <= len
    ensures Overwritten(s, at + i, data)[at..at + len] == Overwritten(s[at..at + len], i, data)
  {
    var l, r := Overwritten(s, at + i, data)[at..at + len], Overwritten(s[at..at + len], i, data);
    forall k | 0 <= k < len ensures l[k] == r[k] {
      assert l[k] == Overwritten(s, at + i, data)[at + k];
      assert i + |data| <= k ==> r[k] == s[at..at + len][k];
    }
  }

  lemma OverwriteOutside(s: seq<byte>, i: nat, data: seq<byte>, at: nat, len: nat)
    requires i + |data| <= |s| && at + len <= |s| && (at + len <= i || i + |data| <= at || len == 0)
    ensures Overwritten(s, i, data)[at..at + len] == s[at..at + len]
  {
    var l := Overwritten(s, i, data)[at..at + len];
    forall k | 0 <= k < len ensures l[k] == s[at + k] {
      assert l[k] == Overwritten(s, i, data)[at + k];
    }
  }

  lemma WriteSound(w: World, p: Pma, i: nat, data: seq<byte>)
    requires Sound(w) && p in w.backs && 0 <= w.backs[p].off && i + |data| <= p.m_length
    ensures Sound(Written(w, p, i, data))
  {
    hide EachHasPma, SharedIsCow, Apart;
  }

  lemma WriteElsewhere(w: World, p: Pma, i: nat, data: seq<byte>, q: Pma)
    requires Sound(w) && p in w.backs && 0 <= w.backs[p].off && i + |data| <= p.m_length && q in w.backs && q != p
    requires Sound(Written(w, p, i, data))
    ensures Content(Written(w, p, i, data), q) == Content(w, q)
  {
    hide EachHasPma, SharedIsCow, Overwritten;
    if 0 <= w.backs[q].off {
      OverwriteOutside(w.fd, w.backs[p].off + i, data, w.backs[q].off, q.m_length);
    }
  }

  // A write into one object is not seen through any other.
  lemma WriteKeeps(w: World, p: Pma, i: nat, data: seq<byte>)
    requires Sound(w) && p in w.backs && 0 <= w.backs[p].off && i + |data| <= p.m_length
    ensures Sound(Written(w, p, i, data))
    ensures Content(Written(w, p, i, data), p) == Overwritten(Content(w, p), i, data)
    ensures forall q :: q in w.backs && q != p ==> Content(Written(w, p, i, data), q) == Content(w, q)
  {
    WriteSound(w, p, i, data);
    InTheFile(w, p);
    OverwriteInside(w.fd, w.backs[p].off, p.m_length, i, data);
    forall q | q in w.backs && q != p ensures Content(Written(w, p, i, data), q) == Content(w, q) {
      WriteElsewhere(w, p, i, data, q);
    }
    hide Sound, Overwritten;
  }

  lemma MoveSound(w: World, v: Vma, a: Area)
    requires Sound(w) && a.pma in w.backs && a.pma.m_length == v.m_region_len
    requires forall u :: u in w.areas && u != v ==> w.areas[u].pma != a.pma || (w.areas[u].cow && a.cow)
    ensures Sound(Moved(w, v, a))
  {
    hide InFile, Apart;
  }

  // An area that moves to an object nobody else has need not be copy-on-write.
  lemma MoveKeeps(w: World, v: Vma, a: Area)
    requires Sound(w) && a.pma in w.backs && a.pma.m_length == v.m_region_len
    requires forall u :: u in w.areas && u != v ==> w.areas[u].pma != a.pma || (w.areas[u].cow && a.cow)
    ensures Sound(Moved(w, v, a)) && Bytes(Moved(w, v, a), v) == Content(w, a.pma)
    ensures forall u :: u in w.areas && u != v ==> Bytes(Moved(w, v, a), u) == Bytes(w, u)
  {
    MoveSound(w, v, a);
    hide SharedIsCow, InFile, Apart;
  }

  lemma PmaOf(w: World, v: Vma)
    requires Sound(w) && v in w.areas
    ensures w.areas[v].pma in w.backs && w.areas[v].pma.m_length == v.m_region_len
  {
  }

  lemma SameSelf(w: World)
    requires Sound(w)
    ensures SameBytes(w, w)
  {
  }

  lemma SameThrice(w0: World, w1: World, w2: World)
    requires Sound(w0) && Sound(w1) && Sound(w2) && w0.areas.Keys <= w1.areas.Keys <= w2.areas.Keys
    requires SameBytes(w0, w1) && SameBytes(w1, w2)
    ensures SameBytes(w0, w2)
  {
    hide Sound, Bytes;
  }

  lemma BytesKept(w: World, w': World, v: Vma)
    requires Sound(w) && Sound(w') && w.areas.Keys <= w'.areas.Keys && SameBytes(w, w') && v in w.areas
    ensures Bytes(w', v) == Bytes(w, v)
  {
  }

  lemma Unbacked(w: World, v: Vma)
    requires Sound(w) && v in w.areas
    ensures w.backs[w.areas[v].pma].off < 0 ==> Bytes(w, v) == Zeros(v.m_region_len)
  {
  }

  lemma NotMapped(w: World, p: Pma)
    requires Sound(w) && p in w.backs && w.backs[p].off < 0
    ensures w.backs[p] == Back(-1, false)
  {
  }

  lemma PmasKnown(w: World)
    requires Sound(w)
    ensures forall v :: v in w.areas ==> w.areas[v].pma in w.backs
  {
  }

  lemma InTheFile(w: World, p: Pma)
    requires Sound(w) && p in w.backs && 0 <= w.backs[p].off
    ensures w.backs[p].off + p.m_length <= |w.fd| && Content(w, p) == w.fd[w.backs[p].off..w.backs[p].off + p.m_length]
  {
  }

  // No area reads differently.
  ghost predicate SameBytes(w: World, w': World)
    requires Sound(w) && Sound(w') && w.areas.Keys <= w'.areas.Keys
  {
    forall u :: u in w.areas ==> Bytes(w', u) == Bytes(w, u)
  }

  /** A write through an area that is not copy-on-write changes that area and no other, in
      this process or in any other. */
  lemma WriteIsolated(w: World, v: Vma, i: nat, data: seq<byte>)
    requires Sound(w) && v in w.areas && !w.areas[v].cow && 0 <= w.backs[w.areas[v].pma].off
    requires i + |data| <= v.m_region_len
    ensures var w' := Written(w, w.areas[v].pma, i, data);
      && Sound(w') && Bytes(w', v) == Overwritten(Bytes(w, v), i, data)
      && forall u :: u in w.areas && u != v ==> Bytes(w', u) == Bytes(w, u)
  {
    WriteKeeps(w, w.areas[v].pma, i, data);
  }

  ghost predicate Backed(w: World, v: Vma)
    requires Sound(w) && v in w.areas
  {
    0 <= w.backs[w.areas[v].pma].off
  }

  // ---------- Address spaces ----------

  predicate Covers(v: Vma, a: int) { v.m_vaddr_start <= a < v.m_vaddr_start + v.m_region_len }

  predicate Aligned(v: Vma) {
    v.m_vaddr_start % PAGE_SIZE == 0 && v.m_region_len % PAGE_SIZE == 0 && 0 < v.m_region_len
  }

  predicate Separate(u: Vma, v: Vma) {
    u.m_vaddr_start + u.m_region_len <= v.m_vaddr_start || v.m_vaddr_start + v.m_region_len <= u.m_vaddr_start
  }

  // Areas are made of whole pages, do not overlap, and are found under their address.
  ghost predicate MapOk(vmas: map<nat, Vma>) {
    && (forall k :: k in vmas ==> vmas[k].m_vaddr_start == k && Aligned(vmas[k]) && k + vmas[k].m_region_len <= TOP)
    && (forall j, k :: j in vmas && k in vmas && j != k ==> Separate(vmas[j], vmas[k]))
  }

  lemma OneArea(vmas: map<nat, Vma>, j: nat, k: nat, a: int)
    requires MapOk(vmas) && j in vmas && k in vmas && Covers(vmas[j], a) && Covers(vmas[k], a)
    ensures j == k
  {
    assert j == k || Separate(vmas[j], vmas[k]);
  }

  lemma PagesCovered(v: Vma, a: nat)
    requires Aligned(v)
    ensures Covers(v, a) <==> Covers(v, PageOf(a))
    ensures Covers(v, a) ==> PageOf(a) + PAGE_SIZE <= v.m_vaddr_start + v.m_region_len
  {
  }

  // The area that holds an address.
  ghost function AreaAt(vmas: map<nat, Vma>, a: int): (r: Option<Vma>)
    ensures r.None? ==> forall k :: k in vmas ==> !Covers(vmas[k], a)
    ensures r.Some? ==> Covers(r.value, a) && exists k :: k in vmas && vmas[k] == r.value
  {
    if k :| k in vmas && Covers(vmas[k], a) then Some(vmas[k]) else None
  }

  lemma AreaIs(vmas: map<nat, Vma>, k: nat, a: int)
    requires MapOk(vmas) && k in vmas && Covers(vmas[k], a)
    ensures AreaAt(vmas, a) == Some(vmas[k])
  {
    var v := AreaAt(vmas, a).value;
    var j :| j in vmas && vmas[j] == v;
    OneArea(vmas, j, k, a);
  }

  // Where the areas lie.
  function Layout(vmas: map<nat, Vma>): map<nat, Extent> {
    map k | k in vmas :: Extent(vmas[k].m_region_len, vmas[k].m_prot)
  }

  lemma MapSpaced(vmas: map<nat, Vma>)
    requires MapOk(vmas)
    ensures Spaced(Layout(vmas))
  {
    var areas := Layout(vmas);
    forall j, k | j in areas && k in areas && j != k ensures j + areas[j].len <= k || k + areas[k].len <= j {
      assert Separate(vmas[j], vmas[k]);
    }
  }

  // Both ways to look an address up agree.
  lemma AreaKey(vmas: map<nat, Vma>, a: int)
    requires MapOk(vmas)
    ensures match KeyAt(Layout(vmas), a)
      case Some(k) => k in vmas && AreaAt(vmas, a) == Some(vmas[k])
      case None => AreaAt(vmas, a) == None
  {
    match KeyAt(Layout(vmas), a)
    case Some(k) => AreaIs(vmas, k, a);
    case None =>
      forall k | k in vmas ensures !Covers(vmas[k], a) {
        assert !Within(Layout(vmas), k, a);
      }
  }

  lemma CoversWithin(vmas: map<nat, Vma>, k: nat, a: int)
    requires MapOk(vmas) && k in vmas
    ensures Covers(vmas[k], a) <==> Within(Layout(vmas), k, a)
  {
    assert vmas[k].m_vaddr_start == k;
  }

  lemma LayoutPut(vmas: map<nat, Vma>, k: nat, v: Vma)
    ensures Layout(vmas[k := v]) == Layout(vmas)[k := Extent(v.m_region_len, v.m_prot)]
  {
  }

  // Every area of the address space is one of the world's.
  ghost predicate Among(vmas: map<nat, Vma>, w: World) {
    forall k :: k in vmas ==> vmas[k] in w.areas
  }

  lemma PagesAlike(vmas: map<nat, Vma>, a: nat)
    requires MapOk(vmas)
    ensures forall k :: k in vmas ==> (Covers(vmas[k], a) <==> Covers(vmas[k], PageOf(a)))
  {
    forall k | k in vmas ensures Covers(vmas[k], a) <==> Covers(vmas[k], PageOf(a)) {
      PagesCovered(vmas[k], a);
    }
  }

  lemma AmongHas(vmas: map<nat, Vma>, w: World, k: nat)
    requires Among(vmas, w) && k in vmas
    ensures vmas[k] in w.areas
  {
  }

  // What the process reads at an address.
  ghost function Sees(vmas: map<nat, Vma>, w: World, a: int): Option<byte>
    requires Sound(w) && Among(vmas, w)
  {
    match AreaAt(vmas, a)
    case Some(v) => Some(Bytes(w, v)[a - v.m_vaddr_start])
    case None => None
  }

  // The process sees the data at dest, and everything else as before.
  ghost predicate Wrote(vmas: map<nat, Vma>, w: World, w': World, dest: nat, data: seq<byte>)
    requires Sound(w) && Among(vmas, w) && Sound(w') && Among(vmas, w')
  {
    forall a: int :: Sees(vmas, w', a) == if dest <= a < dest + |data| then Some(data[a - dest]) else Sees(vmas, w, a)
  }

  lemma WroteNothing(vmas: map<nat, Vma>, w: World, w': World, dest: nat)
    requires Sound(w) && Among(vmas, w) && Sound(w') && w.areas.Keys <= w'.areas.Keys && SameBytes(w, w')
    ensures Among(vmas, w') && Wrote(vmas, w, w', dest, [])
  {
  }

  lemma WroteMore(vmas: map<nat, Vma>, w0: World, w1: World, w2: World, dest: nat, d1: seq<byte>, d2: seq<byte>)
    requires Sound(w0) && Sound(w1) && Sound(w2) && Among(vmas, w0) && Among(vmas, w1) && Among(vmas, w2)
    requires Wrote(vmas, w0, w1, dest, d1) && Wrote(vmas, w1, w2, dest + |d1|, d2)
    ensures Wrote(vmas, w0, w2, dest, d1 + d2)
  {
  }

  // One chunk within one area.
  lemma WroteChunk(vmas: map<nat, Vma>, w: World, v: Vma, a: nat, data: seq<byte>)
    requires Sound(w) && Among(vmas, w) && MapOk(vmas) && v.m_vaddr_start in vmas && vmas[v.m_vaddr_start] == v
    requires !w.areas[v].cow && 0 <= w.backs[w.areas[v].pma].off
    requires v.m_vaddr_start <= a && a + |data| <= v.m_vaddr_start + v.m_region_len
    ensures var w' := Written(w, w.areas[v].pma, a - v.m_vaddr_start, data);
      && Sound(w') && Wrote(vmas, w, w', a, data)
      && forall u :: u in w.areas && u != v ==> Bytes(w', u) == Bytes(w, u)
  {
    hide Sound, Content, Backed;
    PmaOf(w, v);
    var i := a - v.m_vaddr_start;
    WriteIsolated(w, v, i, data);
    var w' := Written(w, w.areas[v].pma, i, data);
    forall b: int
      ensures Sees(vmas, w', b) == if a <= b < a + |data| then Some(data[b - a]) else Sees(vmas, w, b)
    {
      if Covers(v, b) {
        AreaIs(vmas, v.m_vaddr_start, b);
      }
    }
  }

  // A chunk that starts in an area and ends within its page is all in that area.
  lemma ChunkInArea(vmas: map<nat, Vma>, v: Vma, a: nat, n: nat)
    requires MapOk(vmas) && AreaAt(vmas, a) == Some(v) && a + n <= PageOf(a) + PAGE_SIZE
    ensures v.m_vaddr_start in vmas && vmas[v.m_vaddr_start] == v && v.m_vaddr_start <= a
    ensures a + n <= v.m_vaddr_start + v.m_region_len <= TOP
    ensures forall b :: a <= b < a + n ==> AreaAt(vmas, b) == Some(v)
  {
    PagesCovered(v, a);
    forall b | a <= b < a + n ensures AreaAt(vmas, b) == Some(v) {
      AreaIs(vmas, v.m_vaddr_start, b);
    }
  }

  // Areas of other address spaces hold what they held.
  ghost predicate OthersKept(vmas: map<nat, Vma>, w: World, w': World)
    requires Sound(w) && Sound(w') && w.areas.Keys <= w'.areas.Keys
  {
    forall u :: u in w.areas && u !in vmas.Values ==> Bytes(w', u) == Bytes(w, u)
  }

  /** Then another process, which shares no area with this one, reads the same everywhere. */
  lemma OtherSeesTheSame(mine: map<nat, Vma>, theirs: map<nat, Vma>, w: World, w': World, a: int)
    requires Sound(w) && Sound(w') && w.areas.Keys <= w'.areas.Keys && Among(theirs, w)
    requires OthersKept(mine, w, w') && mine.Values !! theirs.Values
    ensures Among(theirs, w') && Sees(theirs, w', a) == Sees(theirs, w, a)
  {
    hide Content, Sound;
    var at := AreaAt(theirs, a);
    if at.Some? {
      var k :| k in theirs && theirs[k] == at.value;
      assert at.value in theirs.Values;
    }
  }

  // The pages of a range have their place in the file.
  ghost predicate Resident(vmas: map<nat, Vma>, w: World, from: nat, n: nat)
    requires Sound(w) && Among(vmas, w)
  {
    forall a :: from <= a < from + n ==> AreaAt(vmas, a).Some? && Backed(w, AreaAt(vmas, a).value)
  }

  // ---------- When a translation succeeds ----------

  // Backing that has been given stays where it is.
  ghost predicate BacksGrow(b: map<Pma, Back>, b': map<Pma, Back>) {
    forall p :: p in b ==> p in b' && (0 <= b[p].off ==> b'[p].off == b[p].off)
  }

  ghost predicate StillBacked(w: World, w': World)
    requires Sound(w) && Sound(w') && w.areas.Keys <= w'.areas.Keys
  {
    forall u :: u in w.areas && Backed(w, u) ==> Backed(w', u)
  }

  // How much more of the file a use of the area takes.
  ghost function Needs(w: World, v: Vma, access: Access): nat
    requires Sound(w) && v in w.areas
  {
    (if Backed(w, v) then 0 else v.m_region_len)
    + (if access == Write && w.areas[v].cow then v.m_region_len else 0)
  }

  ghost predicate Room(w: World, v: Vma, access: Access, max: nat)
    requires Sound(w) && v in w.areas
  {
    (Backed(w, v) && !(access == Write && w.areas[v].cow)) || |w.fd| + Needs(w, v, access) <= max
  }

  /** The page is in an area that allows the access, and the file can grow as needed. */
  ghost predicate Translatable(vmas: map<nat, Vma>, w: World, max: nat, a: nat, access: Access)
    requires Sound(w) && Among(vmas, w)
  {
    match AreaAt(vmas, a)
    case Some(v) => access in v.m_prot && Room(w, v, access, max)
    case None => false
  }

  /** When a failed split forgets what was in the area: it had backing, the file cannot grow
      by another copy, and there was something other than zeros. */
  ghost predicate Loses(vmas: map<nat, Vma>, w: World, max: nat, a: nat, access: Access)
    requires Sound(w) && Among(vmas, w)
  {
    match AreaAt(vmas, a)
    case Some(v) =>
      access == Write && Write in v.m_prot && w.areas[v].cow && Backed(w, v) && |w.fd| + v.m_region_len > max
      && Bytes(w, v) != Zeros(v.m_region_len)
    case None => false
  }

  ghost predicate Permitted(vmas: map<nat, Vma>, a: int, access: Access) {
    AreaAt(vmas, a).Some? && access in AreaAt(vmas, a).value.m_prot
  }

  ghost predicate Allows(vmas: map<nat, Vma>, from: nat, n: nat, access: Access) {
    forall a :: from <= a < from + n ==> Permitted(vmas, a, access)
  }

  // The area that holds the address has become empty, and nothing else has changed.
  ghost predicate Emptied(vmas: map<nat, Vma>, w: World, w': World, a: nat)
    requires Sound(w) && Among(vmas, w) && Sound(w') && Among(vmas, w')
  {
    && AreaAt(vmas, a).Some?
    && forall b: int :: Sees(vmas, w', b) == if Covers(AreaAt(vmas, a).value, b) then Some(0) else Sees(vmas, w, b)
  }

  lemma EmptiedArea(vmas: map<nat, Vma>, w: World, w': World, a: nat, v: Vma)
    requires MapOk(vmas) && Sound(w) && Among(vmas, w) && Sound(w') && w.areas.Keys <= w'.areas.Keys
    requires AreaAt(vmas, a) == Some(v) && v in w'.areas && Bytes(w', v) == Zeros(v.m_region_len)
    requires forall u :: u in w.areas && u != v ==> Bytes(w', u) == Bytes(w, u)
    ensures Among(vmas, w') && Emptied(vmas, w, w', a)
  {
    hide Sound, Bytes, Among;
    var k :| k in vmas && vmas[k] == v;
    AmongStays(vmas, w, w');
    forall b: int ensures Sees(vmas, w', b) == if Covers(v, b) then Some(0) else Sees(vmas, w, b) {
      if Covers(v, b) {
        AreaIs(vmas, k, b);
      } else if AreaAt(vmas, b).Some? {
        var j :| j in vmas && vmas[j] == AreaAt(vmas, b).value;
        AmongHas(vmas, w, j);
      }
    }
  }

  lemma NothingTranslated(vmas: map<nat, Vma>, w: World, max: nat, a: nat, access: Access)
    requires Sound(w) && Among(vmas, w) && !Permitted(vmas, a, access)
    ensures !Translatable(vmas, w, max, a, access) && SameBytes(w, w)
    ensures !Loses(vmas, w, max, a, access) && !SplitFails(vmas, w, max, a, access)
    ensures AccessedAt(vmas, w, w, max, a, access, false)
  {
  }

  // A write that must split the area off has no room for that.
  ghost predicate SplitFails(vmas: map<nat, Vma>, w: World, max: nat, a: nat, access: Access)
    requires Sound(w) && Among(vmas, w)
  {
    && Permitted(vmas, a, access) && access == Write
    && var v := AreaAt(vmas, a).value; v in w.areas && w.areas[v].cow && !Room(w, v, access, max)
  }

  lemma LosesBySplit(vmas: map<nat, Vma>, w: World, max: nat, a: nat, access: Access)
    requires Sound(w) && Among(vmas, w) && Loses(vmas, w, max, a, access)
    ensures SplitFails(vmas, w, max, a, access)
  {
  }

  // What has become of the bytes after an access to the area at an address.
  lemma AccessLoses(vmas: map<nat, Vma>, w: World, w': World, max: nat, a: nat, v: Vma, access: Access, ok: bool)
    requires MapOk(vmas) && Sound(w) && Among(vmas, w) && Sound(w') && w.areas.Keys == w'.areas.Keys
    requires AreaAt(vmas, a) == Some(v) && access in v.m_prot && v in w.areas && (ok <==> Room(w, v, access, max))
    requires forall u :: u in w.areas && u != v ==> Bytes(w', u) == Bytes(w, u)
    requires Bytes(w', v) == if !ok && access == Write && w.areas[v].cow then Zeros(v.m_region_len) else Bytes(w, v)
    ensures SameBytes(w, w') <==> !Loses(vmas, w, max, a, access)
    ensures Among(vmas, w') && (SplitFails(vmas, w, max, a, access) ==> Emptied(vmas, w, w', a))
  {
    AmongStays(vmas, w, w');
    Unbacked(w, v);
    if SplitFails(vmas, w, max, a, access) {
      EmptiedArea(vmas, w, w', a, v);
    }
    hide Sound, Bytes, Among, MapOk, AreaAt;
  }

  lemma AmongStays(vmas: map<nat, Vma>, w: World, w': World)
    requires Among(vmas, w) && w.areas.Keys <= w'.areas.Keys
    ensures Among(vmas, w')
  {
  }

  // ---------- What is behind the areas ----------

  // The objects of the areas, which objects there are, which have a place in the file, and its length.
  datatype Shape = Shape(areas: map<Vma, Area>, pmas: set<Pma>, backed: set<Pma>, used: nat)

  ghost function ShapeOf(w: World): Shape {
    Shape(w.areas, w.backs.Keys, set p | p in w.backs && 0 <= w.backs[p].off, |w.fd|)
  }

  // A place in the file for an object, if there is room.
  ghost function Housed(s: Shape, p: Pma, max: nat): (Shape, bool) {
    if p in s.backed then (s, true)
    else if s.used + p.m_length <= max then (s.(backed := s.backed + {p}, used := s.used + p.m_length), true)
    else (s, false)
  }

  // A copy of the object, which needs a place itself first.
  ghost function Copied(s: Shape, p: Pma, q: Pma, max: nat): (Shape, bool) {
    var (s1, ok) := Housed(s.(pmas := s.pmas + {q}), p, max);
    if ok then Housed(s1, q, max) else (s1, false)
  }

  /** An access to an area; q is the object that it gets when it is split off. */
  ghost function Accessed(s: Shape, v: Vma, q: Pma, access: Access, max: nat): (Shape, bool)
    requires v in s.areas
  {
    if access == Write && s.areas[v].cow then
      var (s1, ok) := Copied(s, s.areas[v].pma, q, max);
      (s1.(areas := s1.areas[v := Area(q, false)]), ok)
    else Housed(s, s.areas[v].pma, max)
  }

  // What a translation does: an access to the area at the address, if that is permitted.
  ghost predicate AccessedAt(vmas: map<nat, Vma>, w: World, w': World, max: nat, a: int, access: Access, ok: bool) {
    if Permitted(vmas, a, access) then
      var v := AreaAt(vmas, a).value;
      && v in w.areas && v in w'.areas
      && (ShapeOf(w'), ok) == Accessed(ShapeOf(w), v, w'.areas[v].pma, access, max)
      && (access == Write && w.areas[v].cow ==> w'.areas[v].pma !in w.backs)
    else !ok && w' == w
  }

  lemma ShapeGrown(w: World, p: Pma, max: nat)
    requires p in w.backs && w.backs[p].off < 0
    ensures Housed(ShapeOf(w), p, max)
      == if |w.fd| + p.m_length <= max then (ShapeOf(Grown(w, p)), true) else (ShapeOf(w), false)
  {
    assert ShapeOf(Grown(w, p)).backed == ShapeOf(w).backed + {p};
    assert ShapeOf(Grown(w, p)).pmas == ShapeOf(w).pmas;
  }

  lemma ShapeMapped(w: World, p: Pma)
    requires p in w.backs
    ensures ShapeOf(MappedIn(w, p)) == ShapeOf(w)
  {
    assert ShapeOf(MappedIn(w, p)).backed == ShapeOf(w).backed;
    assert ShapeOf(MappedIn(w, p)).pmas == ShapeOf(w).pmas;
  }

  lemma ShapePma(w: World, p: Pma)
    requires p !in w.backs
    ensures ShapeOf(WithPma(w, p)) == ShapeOf(w).(pmas := ShapeOf(w).pmas + {p})
  {
    assert ShapeOf(WithPma(w, p)).backed == ShapeOf(w).backed;
    assert ShapeOf(WithPma(w, p)).pmas == ShapeOf(w).pmas + {p};
  }

  lemma ShapeWritten(w: World, p: Pma, i: nat, data: seq<byte>)
    requires Sound(w) && p in w.backs && 0 <= w.backs[p].off && i + |data| <= p.m_length
    ensures ShapeOf(Written(w, p, i, data)) == ShapeOf(w)
  {
  }

  lemma ShapeMoved(w: World, v: Vma, a: Area)
    ensures ShapeOf(Moved(w, v, a)) == ShapeOf(w).(areas := w.areas[v := a])
  {
  }

  lemma ShapeHas(w: World, p: Pma)
    requires p in w.backs
    ensures p in ShapeOf(w).backed <==> 0 <= w.backs[p].off
    ensures ShapeOf(w).areas == w.areas && ShapeOf(w).used == |w.fd|
    ensures ShapeOf(w).backed <= ShapeOf(w).pmas == w.backs.Keys
  {
  }

  lemma ShapeBacked(w: World)
    ensures ShapeOf(w).backed <= ShapeOf(w).pmas
  {
  }

  // A copy that could not be made cannot be given a place afterwards either.
  lemma CopiedAgain(s: Shape, p: Pma, q: Pma, max: nat)
    requires p != q && p.m_length == q.m_length && q !in s.backed
    ensures var (s', ok) := Copied(s, p, q, max); Housed(s', q, max) == (s', ok)
  {
  }

  // ---------- A new area ----------

  lemma AddToMap(vmas: map<nat, Vma>, v: Vma)
    requires MapOk(vmas) && AreaAt(vmas, v.m_vaddr_start).None?
    ensures MapOk(vmas[v.m_vaddr_start := v]) <==> Fits(Layout(vmas), v.m_vaddr_start, v.m_region_len)
  {
    hide MapOk, Fits, AreaAt, Layout, Spaced;
    var a, e := v.m_vaddr_start, Extent(v.m_region_len, v.m_prot);
    MapSpaced(vmas);
    AreaKey(vmas, a);
    FreePage(Layout(vmas), a);
    LayoutKeys(vmas);
    LayoutPut(vmas, a, v);
    SpacedMore(Layout(vmas), a, e);
    SpacedMap(vmas, v);
  }

  lemma LayoutKeys(vmas: map<nat, Vma>)
    ensures Layout(vmas).Keys == vmas.Keys
  {
  }

  lemma SpacedMap(vmas: map<nat, Vma>, v: Vma)
    requires MapOk(vmas) && v.m_vaddr_start !in vmas
    ensures MapOk(vmas[v.m_vaddr_start := v]) <==> Spaced(Layout(vmas[v.m_vaddr_start := v]))
  {
    var more := vmas[v.m_vaddr_start := v];
    assert forall k :: k in more ==> more[k].m_vaddr_start == k;
    if MapOk(more) {
      MapSpaced(more);
    }
    if Spaced(Layout(more)) {
      forall k | k in more ensures Aligned(more[k]) && k + more[k].m_region_len <= TOP {
        assert k in Layout(more);
      }
      forall j, k | j in more && k in more && j != k ensures Separate(more[j], more[k]) {
        assert j in Layout(more) && k in Layout(more);
      }
    }
  }

  ghost function Joined(w: World, v: Vma, p: Pma): World {
    Moved(WithPma(w, p), v, Area(p, false))
  }

  lemma JoinKeeps(w: World, v: Vma, p: Pma)
    requires Sound(w) && v !in w.areas && p !in w.backs && p.m_length == v.m_region_len
    ensures Sound(Joined(w, v, p)) && SameBytes(w, Joined(w, v, p))
    ensures Bytes(Joined(w, v, p), v) == Zeros(v.m_region_len)
  {
    hide Sound, Content;
    PmasKnown(w);
    AddKeeps(w, p);
    MoveKeeps(WithPma(w, p), v, Area(p, false));
  }

  // The area and its object are new, and nothing else in the world is.
  ghost predicate NewInWorld(v: Vma, w: World, w': World) {
    && v !in w.areas && v in w'.areas
    && var p := w'.areas[v].pma; p !in w.backs && p.m_length == v.m_region_len && w' == Joined(w, v, p)
  }

  lemma ShapeJoined(w: World, v: Vma, p: Pma)
    requires p !in w.backs
    ensures ShapeOf(Joined(w, v, p))
         == Shape(w.areas[v := Area(p, false)], ShapeOf(w).pmas + {p}, ShapeOf(w).backed, |w.fd|)
  {
    ShapePma(w, p);
    ShapeMoved(WithPma(w, p), v, Area(p, false));
  }

  // ---------- Sharing ----------

  // A second area for an object whose areas are all copy-on-write.
  lemma ShareKeeps(w: World, v: Vma, c: Vma)
    requires Sound(w) && v in w.areas && w.areas[v].cow && c !in w.areas && c.m_region_len == v.m_region_len
    ensures var w' := Moved(w, c, w.areas[v]); Sound(w') && SameBytes(w, w') && Bytes(w', c) == Bytes(w, v)
  {
    PmaOf(w, v);
    SharersAreCow(w, v);
    MoveKeeps(w, c, w.areas[v]);
  }

  lemma MarkKeeps(w: World, v: Vma)
    requires Sound(w) && v in w.areas
    ensures var w' := Moved(w, v, Area(w.areas[v].pma, true)); Sound(w') && SameBytes(w, w')
  {
    PmaOf(w, v);
    SharersAreCow(w, v);
    MoveKeeps(w, v, Area(w.areas[v].pma, true));
  }

  lemma SharersAreCow(w: World, v: Vma)
    requires Sound(w) && v in w.areas
    ensures forall u :: u in w.areas && u != v && w.areas[u].pma == w.areas[v].pma ==> w.areas[u].cow
  {
  }

  // An area that has just been made holds zeros.
  ghost predicate AreaMade(v: Vma, w: World, start: nat, n: nat, prot: set<Access>) {
    && (v.m_vaddr_start, v.m_region_len, v.m_prot) == (start, n, prot)
    && Sound(w) && v in w.areas && Bytes(w, v) == Zeros(n)
  }

  // ---------- A cloned address space ----------

  // The clone's areas lie where the original's do and hold what those held.
  ghost predicate CloneOf(vmas: map<nat, Vma>, m: map<nat, Vma>, keys: set<nat>, w: World, w': World)
    requires Sound(w) && Among(vmas, w) && Sound(w') && Among(m, w')
  {
    && m.Keys == keys <= vmas.Keys
    && forall k :: k in m ==>
      && m[k].m_vaddr_start == vmas[k].m_vaddr_start && m[k].m_region_len == vmas[k].m_region_len
      && m[k].m_prot == vmas[k].m_prot
      && Bytes(w', m[k]) == Bytes(w, vmas[k])
  }

  // Original and clone have the same object, both copy-on-write.
  ghost predicate Shares(vmas: map<nat, Vma>, m: map<nat, Vma>, w: World) {
    forall k :: k in m ==>
      && k in vmas && vmas[k] in w.areas && m[k] in w.areas
      && w.areas[m[k]] == w.areas[vmas[k]] && w.areas[m[k]].cow
  }

  lemma SharesMore(vmas: map<nat, Vma>, m: map<nat, Vma>, w: World, w': World, k: nat, c: Vma)
    requires Shares(vmas, m, w) && k in vmas && vmas[k] in w.areas
    requires var a := Area(w.areas[vmas[k]].pma, true); w'.areas == w.areas[vmas[k] := a][c := a]
    requires c !in w.areas
    ensures Shares(vmas, m[k := c], w')
  {
  }

  lemma CloneMapOk(vmas: map<nat, Vma>, m: map<nat, Vma>, keys: set<nat>, w: World, w': World)
    requires MapOk(vmas) && Sound(w) && Among(vmas, w) && Sound(w') && Among(m, w')
    requires CloneOf(vmas, m, keys, w, w')
    ensures MapOk(m)
  {
    hide Sound, Bytes;
    forall j, k | j in m && k in m && j != k ensures Separate(m[j], m[k]) {
      assert Separate(vmas[j], vmas[k]);
    }
  }

  lemma NothingCloned(vmas: map<nat, Vma>, w: World)
    requires Sound(w) && Among(vmas, w)
    ensures Among(map[], w) && CloneOf(vmas, map[], {}, w, w)
  {
  }

  // One more area is cloned.
  lemma CloneStep(vmas: map<nat, Vma>, m: map<nat, Vma>, keys: set<nat>, w0: World, w1: World, w2: World, k: nat,
      c: Vma)
    requires Sound(w0) && Sound(w1) && Sound(w2) && Among(vmas, w0) && Among(m, w1)
    requires w0.areas.Keys <= w1.areas.Keys <= w2.areas.Keys && SameBytes(w0, w1) && SameBytes(w1, w2)
    requires CloneOf(vmas, m, keys, w0, w1) && k in vmas && c in w2.areas && Bytes(w2, c) == Bytes(w1, vmas[k])
    requires (c.m_vaddr_start, c.m_region_len, c.m_prot)
         == (vmas[k].m_vaddr_start, vmas[k].m_region_len, vmas[k].m_prot)
    ensures Among(m[k := c], w2) && SameBytes(w0, w2) && CloneOf(vmas, m[k := c], keys + {k}, w0, w2)
  {
    hide Sound, Bytes;
  }

  // The areas under these keys have been cloned, and nobody's bytes have changed.
  ghost predicate Cloning(vmas: map<nat, Vma>, m: map<nat, Vma>, keys: set<nat>, w0: World, w: World) {
    && Sound(w0) && Sound(w) && Among(vmas, w0) && Among(m, w) && w0.areas.Keys <= w.areas.Keys && Among(vmas, w)
    && SameBytes(w0, w) && CloneOf(vmas, m, keys, w0, w) && Shares(vmas, m, w)
    && SamePmas(vmas, w0, w) && OtherAreasSame(vmas, w0, w)
  }

  // The areas have the objects that they had.
  ghost predicate SamePmas(vmas: map<nat, Vma>, w: World, w': World)
    requires Among(vmas, w) && Among(vmas, w')
  {
    forall k :: k in vmas ==> w'.areas[vmas[k]].pma == w.areas[vmas[k]].pma
  }

  ghost predicate OtherAreasSame(vmas: map<nat, Vma>, w: World, w': World) {
    forall u :: u in w.areas && u !in vmas.Values ==> u in w'.areas && w'.areas[u] == w.areas[u]
  }

  lemma CloningStarts(vmas: map<nat, Vma>, w: World)
    requires Sound(w) && Among(vmas, w)
    ensures Cloning(vmas, map[], {}, w, w)
  {
    hide Sound, SameBytes;
    SameSelf(w);
    NothingCloned(vmas, w);
  }

  lemma CloningStep(vmas: map<nat, Vma>, m: map<nat, Vma>, keys: set<nat>, w0: World, w1: World, w2: World, k: nat,
      c: Vma)
    requires Cloning(vmas, m, keys, w0, w1) && k in vmas && k !in keys
    requires Sound(w2) && w1.areas.Keys <= w2.areas.Keys && SameBytes(w1, w2)
    requires c in w2.areas && c !in w1.areas && vmas[k] in w1.areas && Bytes(w2, c) == Bytes(w1, vmas[k])
    requires (c.m_vaddr_start, c.m_region_len, c.m_prot)
         == (vmas[k].m_vaddr_start, vmas[k].m_region_len, vmas[k].m_prot)
    requires var a := Area(w1.areas[vmas[k]].pma, true); w2.areas == w1.areas[vmas[k] := a][c := a]
    ensures Cloning(vmas, m[k := c], keys + {k}, w0, w2)
  {
    hide Sound, Bytes, SameBytes, Shares;
    assert m.Keys == keys;
    CloneStep(vmas, m, keys, w0, w1, w2, k, c);
    SharesMore(vmas, m, w1, w2, k, c);
  }

  /** A cloned address space reads the same at every address. */
  lemma CloneSeesTheSame(vmas: map<nat, Vma>, m: map<nat, Vma>, w: World, w': World, a: int)
    requires MapOk(vmas) && Sound(w) && Among(vmas, w) && Sound(w') && Among(m, w')
    requires CloneOf(vmas, m, vmas.Keys, w, w')
    ensures Sees(m, w', a) == Sees(vmas, w, a)
  {
    hide Sound, Bytes, MapOk;
    CloneMapOk(vmas, m, vmas.Keys, w, w');
    CloneCovers(vmas, m, w, w', a);
    if AreaAt(vmas, a).Some? {
      var k :| k in vmas && vmas[k] == AreaAt(vmas, a).value;
      AreaIs(vmas, k, a);
      AreaIs(m, k, a);
    }
  }

  lemma CloneCovers(vmas: map<nat, Vma>, m: map<nat, Vma>, w: World, w': World, a: int)
    requires Sound(w) && Among(vmas, w) && Sound(w') && Among(m, w') && CloneOf(vmas, m, vmas.Keys, w, w')
    ensures forall k :: k in m ==> (Covers(m[k], a) <==> Covers(vmas[k], a))
    ensures AreaAt(vmas, a).None? <==> AreaAt(m, a).None?
  {
    hide Sound, Bytes;
  }
}
