/** The account of the memory file that separate memories keep, for a family with shared objects:
    every object has a number. */
module CowLedger {
  import opened Wrappers
  import opened AddressSpace
  import opened CowModel
  import opened SeparateMemory

  datatype Book = Book(ids: map<Pma, nat>, file: File)

  // Different objects have different numbers, and the account says of each whether it has a place.
  ghost predicate Mirrored(s: Shape, b: Book) {
    && b.file.used == s.used && b.ids.Keys == s.pmas && s.backed <= s.pmas
    && (forall p, q :: p in b.ids && q in b.ids && p != q ==> b.ids[p] != b.ids[q])
    && (forall p :: p in b.ids ==> b.ids[p] in b.file.objs && b.file.objs[b.ids[p]] == Obj(p.m_length, p in s.backed))
    && forall o :: o in b.file.objs ==> o < b.file.next
  }

  lemma HousedMirrors(s: Shape, p: Pma, b: Book)
    requires Mirrored(s, b) && p in s.pmas
    ensures var (s', ok), (f', ok') := Housed(s, p, b.file.max), Provided(b.file, b.ids[p]);
      ok == ok' && Mirrored(s', b.(file := f')) && f'.max == b.file.max && s'.pmas == s.pmas && s'.areas == s.areas
  {
  }

  // A new object gets the next number.
  function Numbered(b: Book, q: Pma): Book { Book(b.ids[q := b.file.next], NewObj(b.file, q.m_length)) }

  lemma NewMirrors(s: Shape, q: Pma, b: Book)
    requires Mirrored(s, b) && q !in s.pmas
    ensures Mirrored(s.(pmas := s.pmas + {q}), Numbered(b, q))
  {
  }

  lemma CopiedMirrors(s: Shape, p: Pma, q: Pma, b: Book)
    requires Mirrored(s, b) && p in s.pmas && q !in s.pmas
    ensures var (s', ok), (f', ok') := Copied(s, p, q, b.file.max), Split(b.file, b.ids[p], q.m_length);
      && ok == ok' && Mirrored(s', Book(b.ids[q := b.file.next], f')) && f'.max == b.file.max
      && s'.pmas == s.pmas + {q} && s'.areas == s.areas
  {
    hide Mirrored, Housed, Provided;
    NewMirrors(s, q, b);
    MirrorHas(s, p, b);
    var s0, b0 := s.(pmas := s.pmas + {q}), Numbered(b, q);
    HousedMirrors(s0, p, b0);
    var (s1, ok) := Housed(s0, p, b.file.max);
    if ok {
      HousedMirrors(s1, q, b0.(file := Provided(b0.file, b0.ids[p]).0));
    }
  }

  lemma MirrorHas(s: Shape, p: Pma, b: Book)
    requires Mirrored(s, b)
    ensures b.ids.Keys == s.pmas && b.file.used == s.used
    ensures p in b.ids ==> b.ids[p] in b.file.objs && b.file.objs[b.ids[p]].len == p.m_length
  {
  }

  ghost function CellOf(a: Area, b: Book): Cell
    requires a.pma in b.ids
  {
    Cell(b.ids[a.pma], a.cow)
  }

  // The account after an access to an area, where q is the object that it gets when it is split off.
  ghost function BookAfter(b: Book, a: Area, q: Pma, len: nat, access: Access): Book
    requires a.pma in b.ids
  {
    var ids := if access == Write && a.cow then b.ids[q := b.file.next] else b.ids;
    Book(ids, Touch(b.file, CellOf(a, b), len, access).0)
  }

  lemma AccessedMirrors(s: Shape, v: Vma, q: Pma, access: Access, b: Book)
    requires Mirrored(s, b) && v in s.areas && s.areas[v].pma in s.pmas && v.m_region_len == s.areas[v].pma.m_length
    requires access == Write && s.areas[v].cow ==> q !in s.pmas && q.m_length == v.m_region_len
    ensures s.areas[v].pma in b.ids
    ensures var a := s.areas[v];
      var (s', ok), (f', c, ok') := Accessed(s, v, q, access, b.file.max), Touch(b.file, CellOf(a, b), v.m_region_len,
        access);
      var b' := BookAfter(b, a, q, v.m_region_len, access);
      && ok == ok' && Mirrored(s', b') && b'.file == f' && f'.max == b.file.max
      && (s'.areas == s.areas || s'.areas == s.areas[v := Area(q, false)])
      && v in s'.areas && s'.areas[v].pma in b'.ids && c == CellOf(s'.areas[v], b')
  {
    hide Housed, Provided, Copied, Split;
    var a := s.areas[v];
    MirrorHas(s, a.pma, b);
    if access == Write && a.cow {
      CopiedMirrors(s, a.pma, q, b);
      MirrorMoved(Copied(s, a.pma, q, b.file.max).0, v, Area(q, false), BookAfter(b, a, q, v.m_region_len, access));
    } else {
      HousedMirrors(s, a.pma, b);
    }
  }

  lemma MirrorMoved(s: Shape, v: Vma, a: Area, b: Book)
    requires Mirrored(s, b)
    ensures Mirrored(s.(areas := s.areas[v := a]), b)
  {
  }

  // There is an account for any number of objects.
  lemma {:induction false} SomeBook(s: Shape, max: nat) returns (b: Book)
    requires s.backed <= s.pmas
    ensures Mirrored(s, b) && b.file.max == max
    decreases s.pmas
  {
    if s.pmas == {} {
      b := Book(map[], File(s.used, max, map[], 0));
    } else {
      var p :| p in s.pmas;
      var b0 := SomeBook(s.(pmas := s.pmas - {p}, backed := s.backed - {p}), max);
      var f := b0.file;
      b := Book(b0.ids[p := f.next], f.(objs := f.objs[f.next := Obj(p.m_length, p in s.backed)], next := f.next + 1));
    }
  }

  // ---------- A process ----------

  // What is behind its areas.
  ghost predicate Behind(vmas: map<nat, Vma>, w: World, b: Book, cells: map<nat, Cell>) {
    && cells.Keys == vmas.Keys
    && forall k :: k in vmas ==>
      && vmas[k] in w.areas && w.areas[vmas[k]].pma in b.ids
      && cells[k] == CellOf(w.areas[vmas[k]], b)
  }

  ghost function CellsOf(vmas: map<nat, Vma>, w: World, b: Book): map<nat, Cell> {
    map k | k in vmas && vmas[k] in w.areas && w.areas[vmas[k]].pma in b.ids :: CellOf(w.areas[vmas[k]], b)
  }

  lemma CellsBehind(vmas: map<nat, Vma>, w: World, b: Book)
    requires Sound(w) && Among(vmas, w) && Mirrored(ShapeOf(w), b)
    ensures Behind(vmas, w, b, CellsOf(vmas, w, b))
  {
    hide Sound;
    forall k | k in vmas ensures w.areas[vmas[k]].pma in b.ids {
      PmaOf(w, vmas[k]);
    }
  }

  // Numbers stay what they are.
  ghost predicate IdsGrow(b: Book, b': Book) {
    b'.file.max == b.file.max && forall p :: p in b.ids ==> p in b'.ids && b'.ids[p] == b.ids[p]
  }

  lemma IdsGrowMore(b: Book, b1: Book, b2: Book)
    requires IdsGrow(b, b1) && IdsGrow(b1, b2)
    ensures IdsGrow(b, b2)
  {
  }

  lemma OtherAreasMore(vmas: map<nat, Vma>, w: World, w1: World, w2: World)
    requires OtherAreasSame(vmas, w, w1) && OtherAreasSame(vmas, w1, w2)
    ensures OtherAreasSame(vmas, w, w2)
  {
  }

  lemma OneAreaChanged(vmas: map<nat, Vma>, k: nat, w: World, w': World, a: Area, b: Book, b': Book,
      cells: map<nat, Cell>)
    requires MapOk(vmas) && Behind(vmas, w, b, cells) && k in vmas && IdsGrow(b, b')
    requires w'.areas == w.areas[vmas[k] := a] && a.pma in b'.ids
    ensures Behind(vmas, w', b', cells[k := CellOf(a, b')]) && OtherAreasSame(vmas, w, w')
  {
    forall j | j in vmas && j != k ensures vmas[j] != vmas[k] {
      assert vmas[j].m_vaddr_start == j;
    }
  }

  /** A permitted translation is a touch of the account, and its cell is the only one to change. */
  lemma TranslationTouches(vmas: map<nat, Vma>, w: World, w': World, a: nat, access: Access, ok: bool, b: Book,
      cells: map<nat, Cell>)
    returns (k: nat, b': Book)
    requires MapOk(vmas) && Sound(w) && Sound(w') && Mirrored(ShapeOf(w), b) && Behind(vmas, w, b, cells)
    requires Permitted(vmas, a, access)
    requires AccessedAt(vmas, w, w', b.file.max, a, access, ok)
    ensures MayUse(Layout(vmas), a, access) && KeyAt(Layout(vmas), a) == Some(k) && k in cells
    ensures var (f', c, ok') := Touch(b.file, cells[k], Layout(vmas)[k].len, access);
      && ok == ok' && b'.file == f' && Mirrored(ShapeOf(w'), b') && IdsGrow(b, b')
      && Behind(vmas, w', b', cells[k := c]) && OtherAreasSame(vmas, w, w')
    ensures access == Write && cells[k].cow ==> w.areas[AreaAt(vmas, a).value].cow
    ensures cells[k].cow == w.areas[AreaAt(vmas, a).value].cow
  {
    hide Mirrored, Touch, Accessed, Sound, ShapeOf, MapOk, IdsGrow;
    AreaKey(vmas, a);
    k := KeyAt(Layout(vmas), a).value;
    var v := vmas[k];
    PmaOf(w, v);
    PmaOf(w', v);
    ShapeHas(w, w.areas[v].pma);
    ShapeHas(w', w'.areas[v].pma);
    var q := w'.areas[v].pma;
    AccessedMirrors(ShapeOf(w), v, q, access, b);
    b' := BookAfter(b, w.areas[v], q, v.m_region_len, access);
    NumbersKept(ShapeOf(w), w.areas[v], q, v.m_region_len, access, b);
    SameAreas(w.areas, v);
    OneAreaChanged(vmas, k, w, w', w'.areas[v], b, b', cells);
  }

  lemma SameAreas(areas: map<Vma, Area>, v: Vma)
    requires v in areas
    ensures areas[v := areas[v]] == areas
  {
  }

  lemma NumbersKept(s: Shape, a: Area, q: Pma, len: nat, access: Access, b: Book)
    requires Mirrored(s, b) && a.pma in b.ids && (access == Write && a.cow ==> q !in s.pmas)
    ensures IdsGrow(b, BookAfter(b, a, q, len, access))
  {
  }
}
