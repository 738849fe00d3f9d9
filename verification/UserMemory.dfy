/** Copying between the program and a process's memory, page by page. */
module UserMemory {
  import opened ByteSeq
  import opened Wrappers
  import opened AddressSpace
  import opened CowLedger
  import opened CowMemory
  import opened CowModel
  import opened Numbers
  import opened SeparateMemory

  // The next page boundary, in 64-bit arithmetic; always beyond x unless it wraps.
  function PageTop(x: nat): nat { (x + PAGE_SIZE) % WORD / PAGE_SIZE * PAGE_SIZE }

  // Unsigned subtraction.
  function Minus(a: int, b: int): nat { (a - b) % WORD }

  /** The distance to the boundary is what is left of the page, even where the sum wraps. */
  lemma PageLeft(x: nat)
    requires x < WORD
    ensures Minus(PageTop(x), x) == PAGE_SIZE - x % PAGE_SIZE
    ensures x + Minus(PageTop(x), x) == PageOf(x) + PAGE_SIZE
  {
    assert WORD == 0x10_0000_0000_0000 * PAGE_SIZE;
    if x + PAGE_SIZE < WORD {
      assert (x + PAGE_SIZE) / PAGE_SIZE == x / PAGE_SIZE + 1;
    }
  }

  // A page that is resident and readable can be read without growing the file.
  lemma ResidentReads(vmas: map<nat, Vma>, w: World, max: nat, from: nat, n: nat, a: nat)
    requires Sound(w) && Among(vmas, w) && Resident(vmas, w, from, n) && Allows(vmas, from, n, Read)
    requires from <= a < from + n
    ensures Translatable(vmas, w, max, a, Read)
  {
    assert Permitted(vmas, a, Read);
  }

  lemma AreaIsMine(vmas: map<nat, Vma>, w: World, a: nat)
    requires Sound(w) && Among(vmas, w)
    ensures AreaAt(vmas, a).Some? ==> AreaAt(vmas, a).value in vmas.Values && AreaAt(vmas, a).value in w.areas
  {
  }

  lemma TranslatableKeeps(vmas: map<nat, Vma>, w: World, max: nat, a: nat, access: Access)
    requires Sound(w) && Among(vmas, w) && Translatable(vmas, w, max, a, access)
    ensures Permitted(vmas, a, access) && !Loses(vmas, w, max, a, access)
  {
  }

  // What is permitted at the start of a chunk is permitted in all of it.
  lemma ChunkAllowed(vmas: map<nat, Vma>, a: nat, n: nat, access: Access)
    requires MapOk(vmas) && Permitted(vmas, a, access) && a + n <= PageOf(a) + PAGE_SIZE
    ensures Allows(vmas, a, n, access)
  {
    hide PageOf, MapOk;
    ChunkInArea(vmas, AreaAt(vmas, a).value, a, n);
  }

  lemma AllowsMore(vmas: map<nat, Vma>, from: nat, n: nat, m: nat, access: Access)
    requires Allows(vmas, from, n, access) && Allows(vmas, from + n, m, access)
    ensures Allows(vmas, from, n + m, access)
  {
    hide Permitted;
  }

  lemma NothingThenWrote(vmas: map<nat, Vma>, w0: World, w1: World, w2: World, dest: nat, data: seq<byte>)
    requires Sound(w0) && Sound(w1) && Sound(w2) && Among(vmas, w0) && Among(vmas, w1) && Among(vmas, w2)
    requires w0.areas.Keys <= w1.areas.Keys && SameBytes(w0, w1) && Wrote(vmas, w1, w2, dest, data)
    ensures Wrote(vmas, w0, w2, dest, data)
  {
    hide Sound, Bytes, Content, Sees, Wrote;
    WroteNothing(vmas, w0, w1, dest);
    WroteMore(vmas, w0, w1, w2, dest, [], data);
    assert [] + data == data;
  }

  // One chunk, within one page.
  method StoreChunk(mm: MemoryManager, dest: nat, data: seq<byte>) returns (ok: bool)
    requires mm.Valid() && Sound(mm.W()) && Among(mm.m_vmas, mm.W())
    requires dest + |data| <= PageOf(dest) + PAGE_SIZE
    modifies mm.m_phys_mm, mm.m_phys_mm.areas.Keys, mm.m_phys_mm.backs.Keys
    ensures mm.Kept() && Sound(mm.W()) && Among(mm.m_vmas, mm.W()) && OthersKept(mm.m_vmas, old(mm.W()), mm.W())
    ensures ok <==> old(Translatable(mm.m_vmas, mm.W(), mm.m_phys_mm.m_max_usage, dest, Write))
    ensures ok ==> Wrote(mm.m_vmas, old(mm.W()), mm.W(), dest, data)
    ensures ok ==> StillBacked(old(mm.W()), mm.W()) && Resident(mm.m_vmas, mm.W(), dest, |data|) && dest + |data| <= TOP
    ensures ok ==> Allows(mm.m_vmas, dest, |data|, Write)
    ensures AccessedAt(mm.m_vmas, old(mm.W()), mm.W(), mm.m_phys_mm.m_max_usage, dest, Write, ok)
    ensures !ok ==>
      (SameBytes(old(mm.W()), mm.W()) <==> !old(Loses(mm.m_vmas, mm.W(), mm.m_phys_mm.m_max_usage, dest, Write)))
    ensures !ok && old(SplitFails(mm.m_vmas, mm.W(), mm.m_phys_mm.m_max_usage, dest, Write)) ==>
      Emptied(mm.m_vmas, old(mm.W()), mm.W(), dest)
  {
    hide Sound, Bytes, MapOk, AreaAt, PageOf, Translatable, Loses, Sees, Wrote, Backed, PhysMemoryManager.Valid,
      Allows, Emptied, SplitFails, AccessedAt, ShapeOf;
    ghost var vmas, w := mm.m_vmas, mm.W();
    var host_addr := mm.TranslateAddr(dest, Write);
    AreaIsMine(vmas, w, dest);
    if host_addr.None? {
      return false;
    }
    TranslatableKeeps(vmas, w, mm.m_phys_mm.m_max_usage, dest, Write);
    ghost var v, w1 := AreaAt(vmas, dest).value, mm.W();
    mm.Parts();
    ChunkAllowed(vmas, dest, |data|, Write);
    ChunkInArea(vmas, v, dest, |data|);
    mm.StoreAt(dest, host_addr.value, data, v);
    StillAccessed(vmas, w, w1, mm.W(), mm.m_phys_mm.m_max_usage, dest, Write);
    NothingThenWrote(vmas, w, w1, mm.W(), dest, data);
    ok := true;
  }

  // Storing changes nothing of what is behind the areas.
  lemma StillAccessed(vmas: map<nat, Vma>, w: World, w1: World, w2: World, max: nat, a: nat, access: Access)
    requires AccessedAt(vmas, w, w1, max, a, access, true) && ShapeOf(w2) == ShapeOf(w1) && w2.areas == w1.areas
    ensures AccessedAt(vmas, w, w2, max, a, access, true)
  {
  }

  lemma ResidentMore(vmas: map<nat, Vma>, w: World, w': World, from: nat, n: nat, m: nat)
    requires Sound(w) && Sound(w') && Among(vmas, w) && Among(vmas, w') && w.areas.Keys <= w'.areas.Keys
    requires Resident(vmas, w, from, n) && StillBacked(w, w') && Resident(vmas, w', from + n, m)
    ensures Resident(vmas, w', from, n + m)
  {
    hide Sound, Backed, AreaAt;
    forall a | from <= a < from + n ensures AreaAt(vmas, a).Some? && Backed(w', AreaAt(vmas, a).value) {
      AreaIsMine(vmas, w, a);
    }
  }

  lemma OthersKeptMore(vmas: map<nat, Vma>, w0: World, w1: World, w2: World)
    requires Sound(w0) && Sound(w1) && Sound(w2) && w0.areas.Keys <= w1.areas.Keys <= w2.areas.Keys
    requires OthersKept(vmas, w0, w1) && OthersKept(vmas, w1, w2)
    ensures OthersKept(vmas, w0, w2)
  {
    hide Sound, Bytes;
  }

  // So many bytes have been written, and nothing else has happened.
  ghost predicate Progress(vmas: map<nat, Vma>, w0: World, w: World, start: nat, src: seq<byte>, done: nat) {
    && Sound(w0) && Sound(w) && Among(vmas, w0) && Among(vmas, w) && w0.areas.Keys <= w.areas.Keys && done <= |src|
    && OthersKept(vmas, w0, w) && Wrote(vmas, w0, w, start, src[..done]) && Resident(vmas, w, start, done)
    && Allows(vmas, start, done, Write)
  }

  lemma NothingYet(vmas: map<nat, Vma>, w: World, start: nat, src: seq<byte>)
    requires Sound(w) && Among(vmas, w)
    ensures Progress(vmas, w, w, start, src, 0)
  {
    WroteNothing(vmas, w, w, start);
    assert src[..0] == [];
  }

  lemma MoreProgress(vmas: map<nat, Vma>, w0: World, w: World, w': World, start: nat, src: seq<byte>, done: nat, k: nat)
    requires Progress(vmas, w0, w, start, src, done) && done + k <= |src|
    requires Sound(w') && Among(vmas, w') && w.areas.Keys <= w'.areas.Keys && OthersKept(vmas, w, w')
    requires Wrote(vmas, w, w', start + done, src[done..][..k]) && StillBacked(w, w')
    requires Resident(vmas, w', start + done, k)
    requires Allows(vmas, start + done, k, Write)
    ensures Progress(vmas, w0, w', start, src, done + k)
  {
    hide Sound, Wrote, Resident, StillBacked, OthersKept, Allows;
    AllowsMore(vmas, start, done, k, Write);
    OthersKeptMore(vmas, w0, w, w');
    WroteMore(vmas, w0, w, w', start, src[..done], src[done..][..k]);
    ResidentMore(vmas, w, w', start, done, k);
    assert src[..done] + src[done..][..k] == src[..done + k];
  }

  lemma Finished(vmas: map<nat, Vma>, w0: World, w: World, start: nat, src: seq<byte>)
    requires Progress(vmas, w0, w, start, src, |src|)
    ensures Sound(w) && Among(vmas, w) && Wrote(vmas, w0, w, start, src[..|src|]) && Resident(vmas, w, start, |src|)
    ensures OthersKept(vmas, w0, w) && Allows(vmas, start, |src|, Write)
  {
  }

  lemma Stopped(vmas: map<nat, Vma>, w0: World, w: World, w': World, start: nat, src: seq<byte>, done: nat)
    requires Progress(vmas, w0, w, start, src, done)
    requires Sound(w') && w.areas.Keys <= w'.areas.Keys && OthersKept(vmas, w, w')
    ensures Wrote(vmas, w0, w, start, src[..done]) && OthersKept(vmas, w0, w') && Allows(vmas, start, done, Write)
  {
    hide Sound, Wrote, OthersKept, Allows;
    OthersKeptMore(vmas, w0, w, w');
  }

  // The next chunk: what is left of the page, or of the data.
  function CopyAmount(at: nat, n: nat): (k: nat)
    requires at < WORD
    ensures k == PageStep(at, n)
  {
    PageLeft(at);
    var page_left := Minus(PageTop(at), at);
    if n > page_left then page_left else n
  }

  // ---------- The account ----------

  // The account, and what is behind the areas of the process.
  ghost predicate Booked(vmas: map<nat, Vma>, w: World, b: Book, cells: map<nat, Cell>) {
    Mirrored(ShapeOf(w), b) && Behind(vmas, w, b, cells)
  }

  lemma SomeAccount(vmas: map<nat, Vma>, w: World, max: nat) returns (b: Book, cells: map<nat, Cell>)
    requires Sound(w) && Among(vmas, w)
    ensures Booked(vmas, w, b, cells) && b.file.max == max
  {
    hide Sound, Mirrored, Behind;
    ShapeBacked(w);
    b := SomeBook(ShapeOf(w), max);
    cells := CellsOf(vmas, w, b);
    CellsBehind(vmas, w, b);
  }

  // What has been done since: numbers and the areas of other processes are as they were.
  ghost predicate BookedSince(vmas: map<nat, Vma>, w0: World, b0: Book, w: World, b: Book, cells: map<nat, Cell>) {
    Booked(vmas, w, b, cells) && IdsGrow(b0, b) && OtherAreasSame(vmas, w0, w)
  }

  // So many bytes of an access have been reached, and what comes of the rest comes of the whole.
  ghost predicate Reached(areas: map<nat, Extent>, cells0: map<nat, Cell>, f0: File, start: nat, n: nat, access: Access,
      done: nat, cells: map<nat, Cell>, f: File)
  {
    done <= n && var rest := AccessTo(areas, cells, f, start + done, n - done, access);
      AccessTo(areas, cells0, f0, start, n, access) == rest.(done := done + rest.done)
  }

  // An access under way.
  ghost predicate Underway(vmas: map<nat, Vma>, w0: World, b0: Book, cells0: map<nat, Cell>, w: World, b: Book,
      cells: map<nat, Cell>, start: nat, n: nat, access: Access, done: nat)
  {
    && BookedSince(vmas, w0, b0, w, b, cells) && b.file.max == b0.file.max
    && Reached(Layout(vmas), cells0, b0.file, start, n, access, done, cells, b.file)
  }

  // What has come of it when it ends.
  ghost predicate Ended(vmas: map<nat, Vma>, w0: World, b0: Book, cells0: map<nat, Cell>, w: World, b: Book,
      start: nat, n: nat, access: Access, done: nat, lost: bool)
  {
    var r := AccessTo(Layout(vmas), cells0, b0.file, start, n, access);
    BookedSince(vmas, w0, b0, w, b, r.cells) && b.file == r.file && done == r.done && lost == r.lost
  }

  lemma EndBooked(vmas: map<nat, Vma>, w0: World, b0: Book, cells0: map<nat, Cell>, w: World, b: Book,
      start: nat, n: nat, access: Access, done: nat, lost: bool) returns (cells: map<nat, Cell>)
    requires Ended(vmas, w0, b0, cells0, w, b, start, n, access, done, lost)
    ensures Booked(vmas, w, b, cells) && b.file.max == b0.file.max
    ensures cells == AccessTo(Layout(vmas), cells0, b0.file, start, n, access).cells
  {
    cells := AccessTo(Layout(vmas), cells0, b0.file, start, n, access).cells;
  }

  lemma NothingReached(vmas: map<nat, Vma>, w: World, b: Book, cells: map<nat, Cell>, start: nat, n: nat,
      access: Access)
    requires Booked(vmas, w, b, cells)
    ensures Underway(vmas, w, b, cells, w, b, cells, start, n, access, 0)
  {
    hide Mirrored, Behind;
  }

  lemma AllReached(vmas: map<nat, Vma>, w0: World, b0: Book, cells0: map<nat, Cell>, w: World, b: Book,
      cells: map<nat, Cell>, start: nat, n: nat, access: Access)
    requires Underway(vmas, w0, b0, cells0, w, b, cells, start, n, access, n)
    ensures Ended(vmas, w0, b0, cells0, w, b, start, n, access, n, false)
  {
    hide BookedSince;
  }

  /** One more chunk: the translation is a touch of the account. */
  lemma ChunkBooked(vmas: map<nat, Vma>, w0: World, b0: Book, cells0: map<nat, Cell>, w: World, b: Book,
      cells: map<nat, Cell>, w': World, start: nat, n: nat, access: Access, done: nat, ok: bool)
    returns (b': Book, cells': map<nat, Cell>)
    requires MapOk(vmas) && Sound(w) && Among(vmas, w) && Sound(w')
    requires Underway(vmas, w0, b0, cells0, w, b, cells, start, n, access, done) && done < n
    requires AccessedAt(vmas, w, w', b0.file.max, start + done, access, ok)
    requires ok <==> Translatable(vmas, w, b0.file.max, start + done, access)
    ensures ok ==>
      Underway(vmas, w0, b0, cells0, w', b', cells', start, n, access, done + PageStep(start + done, n - done))
    ensures !ok ==> var lost := SplitFails(vmas, w, b0.file.max, start + done, access);
      Ended(vmas, w0, b0, cells0, w', b', start, n, access, done, lost)
  {
    hide Mirrored, Behind, MapOk, Sound, ShapeOf, IdsGrow, OtherAreasSame, Touch, PageStep, Accessed, Room;
    var areas, at := Layout(vmas), start + done;
    if Permitted(vmas, at, access) {
      var k;
      k, b' := TranslationTouches(vmas, w, w', at, access, ok, b, cells);
      cells' := cells[k := Touch(b.file, cells[k], areas[k].len, access).1];
      IdsGrowMore(b0, b, b');
      OtherAreasMore(vmas, w0, w, w');
      MaxKept(b0, b');
    } else {
      b', cells' := b, cells;
      NotPermitted(vmas, at, access);
    }
  }

  lemma MaxKept(b: Book, b': Book)
    requires IdsGrow(b, b')
    ensures b'.file.max == b.file.max
  {
  }

  lemma NotPermitted(vmas: map<nat, Vma>, a: int, access: Access)
    requires MapOk(vmas) && !Permitted(vmas, a, access)
    ensures !MayUse(Layout(vmas), a, access)
  {
    hide MapOk;
    AreaKey(vmas, a);
  }

  // Where a copy that has done so many bytes has stopped.
  ghost predicate StoppedAt(vmas: map<nat, Vma>, w: World, max: nat, start: nat, done: nat, access: Access)
    requires Sound(w) && Among(vmas, w)
  {
    (done == 0 || (start + done) % PAGE_SIZE == 0) && !Translatable(vmas, w, max, start + done, access)
  }

  /** Writes page by page. When it succeeds the process sees exactly the data there, and when
      it does not, exactly the bytes before the first page that cannot be translated. Other
      processes see no difference either way. How far it gets, and what it takes of the file, is
      what the account says. */
  method WriteToUser(mm: MemoryManager, start: nat, src: seq<byte>, ghost b: Book, ghost cells: map<nat, Cell>)
    returns (ok: bool, ghost done: nat, ghost at: World, ghost b': Book)
    requires mm.Valid() && Sound(mm.W()) && Among(mm.m_vmas, mm.W()) && start < WORD
    requires Booked(mm.m_vmas, mm.W(), b, cells) && b.file.max == mm.m_phys_mm.m_max_usage
    modifies mm.m_phys_mm, mm.m_phys_mm.areas.Keys, mm.m_phys_mm.backs.Keys
    ensures mm.Kept() && Sound(mm.W()) && Among(mm.m_vmas, mm.W()) && OthersKept(mm.m_vmas, old(mm.W()), mm.W())
    ensures done <= |src| && (ok <==> done == |src|)
    ensures Sound(at) && Among(mm.m_vmas, at) && at.areas.Keys == mm.W().areas.Keys
    ensures Wrote(mm.m_vmas, old(mm.W()), at, start, src[..done])
    ensures ok ==> at == mm.W() && Resident(mm.m_vmas, at, start, |src|)
    ensures !ok ==> StoppedAt(mm.m_vmas, at, mm.m_phys_mm.m_max_usage, start, done, Write)
    ensures !ok ==> (SameBytes(at, mm.W()) <==> !Loses(mm.m_vmas, at, mm.m_phys_mm.m_max_usage, start + done, Write))
    ensures !ok && SplitFails(mm.m_vmas, at, mm.m_phys_mm.m_max_usage, start + done, Write) ==>
      Emptied(mm.m_vmas, at, mm.W(), start + done)
    ensures var lost := !ok && SplitFails(mm.m_vmas, at, mm.m_phys_mm.m_max_usage, start + done, Write);
      Ended(mm.m_vmas, old(mm.W()), b, cells, mm.W(), b', start, |src|, Write, done, lost)
  {
    hide Sound, Bytes, MapOk, AreaAt, PageOf, Translatable, Loses, Sees, Wrote, Backed, Resident, StillBacked,
      OthersKept, PhysMemoryManager.Valid, MemoryManager.Valid, SameBytes, Progress, Among, CopyAmount, Allows,
      Emptied, SplitFails, AccessedAt, Booked, Underway, Ended, ShapeOf, PageStep;
    ghost var vmas, w0, cells1 := mm.m_vmas, mm.W(), cells;
    var n, user_dest, p := |src|, start, src;
    done, b' := 0, b;
    NothingYet(vmas, w0, start, src);
    NothingReached(vmas, w0, b, cells, start, n, Write);
    while n > 0
      invariant n == |p| && done + n == |src| && p == src[done..]
      invariant n > 0 ==> user_dest == start + done < WORD && (done == 0 || (start + done) % PAGE_SIZE == 0)
      invariant mm.Kept() && Sound(mm.W()) && Among(vmas, mm.W()) && Progress(vmas, w0, mm.W(), start, src, done)
      invariant Underway(vmas, w0, b, cells, mm.W(), b', cells1, start, |src|, Write, done)
    {
      ghost var w1, b1, cells2 := mm.W(), b', cells1;
      var copy_amt := CopyAmount(user_dest, n);
      ok := StoreChunk(mm, user_dest, p[..copy_amt]);
      mm.Parts();
      b', cells1 := ChunkBooked(vmas, w0, b, cells, w1, b1, cells2, mm.W(), start, |src|, Write, done, ok);
      if !ok {
        at := w1;
        Stopped(vmas, w0, w1, mm.W(), start, src, done);
        return;
      }
      MoreProgress(vmas, w0, w1, mm.W(), start, src, done, copy_amt);
      p := p[copy_amt..];
      user_dest := (user_dest + copy_amt) % WORD;
      n := n - copy_amt;
      done := done + copy_amt;
    }
    ok, at := true, mm.W();
    Finished(vmas, w0, at, start, src);
    AllReached(vmas, w0, b, cells, mm.W(), b', cells1, start, |src|, Write);
  }

  // The data are what the process sees from an address on.
  ghost predicate Shows(vmas: map<nat, Vma>, w: World, start: nat, data: seq<byte>)
    requires Sound(w) && Among(vmas, w)
  {
    forall i :: 0 <= i < |data| ==> Sees(vmas, w, start + i) == Some(data[i])
  }

  lemma ShowsMore(vmas: map<nat, Vma>, w: World, w': World, start: nat, d1: seq<byte>, d2: seq<byte>)
    requires Sound(w) && Sound(w') && Among(vmas, w) && w.areas.Keys <= w'.areas.Keys && SameBytes(w, w')
    requires Shows(vmas, w, start, d1) && Shows(vmas, w', start + |d1|, d2)
    ensures Among(vmas, w') && Shows(vmas, w, start, d1 + d2)
  {
    SameSight(vmas, w, w');
    hide Sound, Bytes, Sees;
    forall i | |d1| <= i < |d1 + d2| ensures Sees(vmas, w, start + i) == Some((d1 + d2)[i]) {
      assert Sees(vmas, w', start + |d1| + (i - |d1|)) == Some(d2[i - |d1|]);
    }
  }

  lemma SameSight(vmas: map<nat, Vma>, w: World, w': World)
    requires Sound(w) && Sound(w') && Among(vmas, w) && w.areas.Keys <= w'.areas.Keys && SameBytes(w, w')
    ensures Among(vmas, w') && forall a: int :: Sees(vmas, w', a) == Sees(vmas, w, a)
  {
    hide Sound, Bytes;
  }

  // One chunk, within one page. Reading changes nothing that any process could see.
  method LoadChunk(mm: MemoryManager, src: nat, n: nat) returns (data: Option<seq<byte>>)
    requires mm.Valid() && Sound(mm.W()) && Among(mm.m_vmas, mm.W())
    requires src + n <= PageOf(src) + PAGE_SIZE
    modifies mm.m_phys_mm, mm.m_phys_mm.areas.Keys, mm.m_phys_mm.backs.Keys
    ensures mm.Kept() && Sound(mm.W()) && Among(mm.m_vmas, mm.W()) && SameBytes(old(mm.W()), mm.W())
    ensures data.Some? <==> old(Translatable(mm.m_vmas, mm.W(), mm.m_phys_mm.m_max_usage, src, Read))
    ensures data.Some? ==> |data.value| == n && Shows(mm.m_vmas, mm.W(), src, data.value) && src + n <= TOP
    ensures data.Some? ==> StillBacked(old(mm.W()), mm.W())
    ensures data.None? ==> mm.W() == old(mm.W())
    ensures data.None? ==> !Translatable(mm.m_vmas, mm.W(), mm.m_phys_mm.m_max_usage, src, Read)
    ensures AccessedAt(mm.m_vmas, old(mm.W()), mm.W(), mm.m_phys_mm.m_max_usage, src, Read, data.Some?)
  {
    hide Sound, Content, MapOk, AreaAt, PageOf, Translatable, PhysMemoryManager.Valid, MemoryManager.Valid, Emptied,
      SplitFails, AccessedAt, ShapeOf;
    ghost var vmas, w := mm.m_vmas, mm.W();
    var host_addr := mm.TranslateAddr(src, Read);
    if host_addr.None? {
      return None;
    }
    TranslatableKeeps(vmas, w, mm.m_phys_mm.m_max_usage, src, Read);
    ghost var v := AreaAt(vmas, src).value;
    mm.Parts();
    ChunkInArea(vmas, v, src, n);
    PmaOf(mm.W(), v);
    InTheFile(mm.W(), mm.m_phys_mm.areas[v].pma);
    data := Some(mm.m_phys_mm.memfd[host_addr.value..host_addr.value + n]);
  }

  lemma ResidentStill(vmas: map<nat, Vma>, w: World, w': World, from: nat, n: nat)
    requires Sound(w) && Sound(w') && Among(vmas, w) && w.areas.Keys <= w'.areas.Keys
    requires Resident(vmas, w, from, n) && StillBacked(w, w')
    ensures Among(vmas, w') && Resident(vmas, w', from, n)
  {
    hide Sound, Backed, AreaAt;
    forall a | from <= a < from + n ensures AreaAt(vmas, a).Some? && Backed(w', AreaAt(vmas, a).value) {
      AreaIsMine(vmas, w, a);
    }
  }

  // The stretch is resident as long as it was, whatever has been read of it.
  ghost predicate StillResident(vmas: map<nat, Vma>, w: World, w': World, from: nat, n: nat)
    requires Sound(w) && Sound(w') && Among(vmas, w) && Among(vmas, w')
  {
    Resident(vmas, w, from, n) ==> Resident(vmas, w', from, n)
  }

  /** Reads page by page: the bytes the process sees there, up to the first page that cannot
      be translated; the result says how many are left. No process sees a difference. How far it
      gets, and what it takes of the file, is what the account says. */
  method ReadFromUser(mm: MemoryManager, start: nat, len: nat, ghost b: Book, ghost cells: map<nat, Cell>)
    returns (dest: seq<byte>, n: nat, ghost b': Book)
    requires mm.Valid() && Sound(mm.W()) && Among(mm.m_vmas, mm.W()) && start < WORD
    requires Booked(mm.m_vmas, mm.W(), b, cells) && b.file.max == mm.m_phys_mm.m_max_usage
    modifies mm.m_phys_mm, mm.m_phys_mm.areas.Keys, mm.m_phys_mm.backs.Keys
    ensures mm.Kept() && Sound(mm.W()) && Among(mm.m_vmas, mm.W()) && SameBytes(old(mm.W()), mm.W())
    ensures n <= len && |dest| == len - n && Shows(mm.m_vmas, old(mm.W()), start, dest)
    ensures n > 0 ==> StoppedAt(mm.m_vmas, mm.W(), mm.m_phys_mm.m_max_usage, start, len - n, Read)
    ensures StillResident(mm.m_vmas, old(mm.W()), mm.W(), start, len)
    ensures Ended(mm.m_vmas, old(mm.W()), b, cells, mm.W(), b', start, len, Read, |dest|, false)
  {
    hide Sound, Bytes, MapOk, AreaAt, PageOf, Translatable, Sees, Shows, Backed, Resident, StillBacked, SameBytes,
      PhysMemoryManager.Valid, MemoryManager.Valid, CopyAmount, AccessedAt, Booked, Underway, Ended, ShapeOf, PageStep;
    ghost var vmas, w0, cells1 := mm.m_vmas, mm.W(), cells;
    n, dest, b' := len, [], b;
    var user_src := start;
    NothingRead(vmas, w0, start);
    NothingReached(vmas, w0, b, cells, start, len, Read);
    while n > 0
      invariant n <= len && |dest| == len - n
      invariant n > 0 ==> user_src == start + |dest| < WORD && (|dest| == 0 || (start + |dest|) % PAGE_SIZE == 0)
      invariant mm.Kept() && Sound(mm.W()) && Among(vmas, mm.W()) && SameBytes(w0, mm.W())
      invariant Shows(vmas, w0, start, dest) && StillResident(vmas, w0, mm.W(), start, len)
      invariant Underway(vmas, w0, b, cells, mm.W(), b', cells1, start, len, Read, |dest|)
    {
      ghost var w1, b1, cells2 := mm.W(), b', cells1;
      var copy_amt := CopyAmount(user_src, n);
      var chunk := LoadChunk(mm, user_src, copy_amt);
      mm.Parts();
      b', cells1 := ChunkBooked(vmas, w0, b, cells, w1, b1, cells2, mm.W(), start, len, Read, |dest|, chunk.Some?);
      SameThrice(w0, w1, mm.W());
      if chunk.None? {
        return;
      }
      ShowsMore(vmas, w0, mm.W(), start, dest, chunk.value);
      if Resident(vmas, w1, start, len) {
        ResidentStill(vmas, w1, mm.W(), start, len);
      }
      dest := dest + chunk.value;
      user_src := (user_src + copy_amt) % WORD;
      n := n - copy_amt;
    }
    AllReached(vmas, w0, b, cells, mm.W(), b', cells1, start, len, Read);
  }

  lemma NothingRead(vmas: map<nat, Vma>, w: World, start: nat)
    requires Sound(w) && Among(vmas, w)
    ensures SameBytes(w, w) && Shows(vmas, w, start, [])
  {
  }

  lemma WrittenShows(vmas: map<nat, Vma>, w: World, w': World, start: nat, data: seq<byte>, back: seq<byte>)
    requires Sound(w) && Sound(w') && Among(vmas, w) && Among(vmas, w') && Wrote(vmas, w, w', start, data)
    requires Shows(vmas, w', start, back) && |back| <= |data|
    ensures back == data[..|back|]
  {
    hide Sound, Sees;
    forall i | 0 <= i < |back| ensures back[i] == data[i] {
      assert Sees(vmas, w', start + i) == Some(back[i]);
    }
  }

  /** What is written can be read back, whole, wherever the pages may be read, across any
      number of pages and areas, shared or not. */
  method WriteThenRead(mm: MemoryManager, start: nat, src: seq<byte>) returns (ok: bool, back: seq<byte>, left: nat)
    requires mm.Valid() && Sound(mm.W()) && Among(mm.m_vmas, mm.W()) && start < WORD
    modifies mm.m_phys_mm, mm.m_phys_mm.areas.Keys, mm.m_phys_mm.backs.Keys
    ensures left <= |src| && (ok ==> back == src[..|src| - left])
    ensures ok && Allows(mm.m_vmas, start, |src|, Read) ==> left == 0 && back == src
  {
    hide Sound, Bytes, MapOk, AreaAt, PageOf, Translatable, Sees, Shows, Backed, Resident, StillBacked, SameBytes,
      PhysMemoryManager.Valid, MemoryManager.Valid, Allows, Wrote, Loses, OthersKept, Emptied, SplitFails, Booked,
      Ended;
    ghost var vmas, w0 := mm.m_vmas, mm.W();
    ghost var done, at, b1;
    left, back := 0, [];
    mm.Parts();
    ghost var b, cells := SomeAccount(vmas, w0, mm.m_phys_mm.m_max_usage);
    ok, done, at, b1 := WriteToUser(mm, start, src, b, cells);
    if ok {
      ghost var cells1 := EndBooked(vmas, w0, b, cells, mm.W(), b1, start, |src|, Write, done, false);
      ghost var b2;
      back, left, b2 := ReadFromUser(mm, start, |src|, b1, cells1);
      assert src[..done] == src;
      WrittenShows(vmas, w0, at, start, src, back);
      if left > 0 && Allows(vmas, start, |src|, Read) {
        ResidentReads(vmas, mm.W(), mm.m_phys_mm.m_max_usage, start, |src|, start + |back|);
      }
    }
  }
}
