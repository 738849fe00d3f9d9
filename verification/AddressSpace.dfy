/** Where the areas of an address space lie, and where a new one goes. */
module AddressSpace {
  import opened Wrappers

  const PAGE_SIZE: nat := 0x1000
  const LOWER_BOUND: nat := 0x100000
  const UPPER_BOUND: nat := 0x8000_0000_0000 - PAGE_SIZE
  const TOP: nat := 0x8000_0000_0000_0000
  // The longest region that a system call asks for.
  const MAX_MAP_LENGTH: nat := 0x1000000

  datatype Access = Read | Write

  // An area, found under its start address.
  datatype Extent = Extent(len: nat, prot: set<Access>)

  function PageOf(a: nat): nat { a / PAGE_SIZE * PAGE_SIZE }

  predicate WholePages(n: nat) { n % PAGE_SIZE == 0 }

  predicate Within(areas: map<nat, Extent>, k: nat, a: int) { k in areas && k <= a < k + areas[k].len }

  // Areas are made of whole pages and do not overlap.
  ghost predicate Spaced(areas: map<nat, Extent>) {
    && (forall k :: k in areas ==>
      WholePages(k) && WholePages(areas[k].len) && 0 < areas[k].len && k + areas[k].len <= TOP)
    && (forall j, k :: j in areas && k in areas && j != k ==> j + areas[j].len <= k || k + areas[k].len <= j)
  }

  // The area that holds an address.
  ghost function KeyAt(areas: map<nat, Extent>, a: int): (r: Option<nat>)
    ensures r.Some? ==> Within(areas, r.value, a)
    ensures r.None? ==> forall k :: k in areas ==> !Within(areas, k, a)
  {
    if k :| Within(areas, k, a) then Some(k) else None
  }

  lemma KeyIs(areas: map<nat, Extent>, k: nat, a: int)
    requires Spaced(areas) && Within(areas, k, a)
    ensures KeyAt(areas, a) == Some(k)
  {
  }

  ghost predicate MayUse(areas: map<nat, Extent>, a: int, access: Access) {
    KeyAt(areas, a).Some? && access in areas[KeyAt(areas, a).value].prot
  }

  // ---------- Room for a new area ----------

  predicate FreeRange(areas: map<nat, Extent>, a: nat, n: nat) {
    forall k :: k in areas ==> k + areas[k].len <= a || a + n <= k
  }

  // Where a new area fits: whole pages, nothing in the way.
  predicate Fits(areas: map<nat, Extent>, a: nat, n: nat) {
    WholePages(a) && WholePages(n) && 0 < n && a + n <= TOP && FreeRange(areas, a, n)
  }

  lemma SpacedMore(areas: map<nat, Extent>, a: nat, e: Extent)
    requires Spaced(areas) && a !in areas
    ensures Spaced(areas[a := e]) <==> Fits(areas, a, e.len)
  {
    var more := areas[a := e];
    assert more[a] == e && forall k :: k in areas ==> more[k] == areas[k];
    if Spaced(more) {
      forall k | k in areas ensures k + areas[k].len <= a || a + e.len <= k {
        assert k in more && k != a;
      }
    }
  }

  function PageAt(a: nat, j: nat): nat { a + j * PAGE_SIZE }

  // The first area met by probing the first page, and the others that the length covers.
  ghost function Conflict(areas: map<nat, Extent>, guess: nat, length: nat, i: nat): (r: Option<nat>)
    ensures r.Some? ==> r.value in areas
    decreases length - i
  {
    if i > 0 && i >= length / PAGE_SIZE then None
    else if KeyAt(areas, PageAt(guess, i)).Some? then KeyAt(areas, PageAt(guess, i))
    else Conflict(areas, guess, length, i + 1)
  }

  /** The scan: a conflict moves the guess on by the length of the area in the way, until
      there is none or the bound is reached. Says whether it ended without a conflict. */
  ghost function Scan(areas: map<nat, Extent>, guess: nat, length: nat, bound: nat): (r: (nat, bool))
    requires Spaced(areas)
    ensures guess <= r.0 && (r.0 < bound ==> r.1)
    decreases bound - guess
  {
    match Conflict(areas, guess, length, 0)
    case None => (guess, true)
    case Some(k) =>
      var next := guess + areas[k].len;
      if next < bound then Scan(areas, next, length, bound) else (next, false)
  }

  lemma {:induction false} NoConflict(areas: map<nat, Extent>, guess: nat, length: nat, i: nat)
    requires Conflict(areas, guess, length, i).None?
    ensures forall j, k ::
      k in areas && i <= j && (j == 0 || j < length / PAGE_SIZE) ==> !Within(areas, k, PageAt(guess, j))
    decreases length - i
  {
    if i == 0 || i < length / PAGE_SIZE {
      NoConflict(areas, guess, length, i + 1);
    }
  }

  // Page j of the guess is probed: the first one always, the others that the length covers.
  predicate Probed(length: nat, j: nat) { j == 0 || j < length / PAGE_SIZE }

  // No area holds the start of page j.
  ghost predicate PageFree(areas: map<nat, Extent>, guess: nat, j: nat) {
    forall k :: k in areas ==> !Within(areas, k, PageAt(guess, j))
  }

  // The area at the first page, of those probed, that is not free.
  ghost predicate FirstInWay(areas: map<nat, Extent>, guess: nat, length: nat, k: nat) {
    exists j: nat :: Probed(length, j) && Within(areas, k, PageAt(guess, j))
      && forall i: nat :: i < j ==> PageFree(areas, guess, i)
  }

  ghost predicate NoneInWay(areas: map<nat, Extent>, guess: nat, length: nat) {
    forall j: nat :: Probed(length, j) ==> PageFree(areas, guess, j)
  }

  lemma {:induction false} ConflictIsFirst(areas: map<nat, Extent>, guess: nat, length: nat, i: nat)
    requires forall j: nat :: j < i ==> PageFree(areas, guess, j)
    ensures match Conflict(areas, guess, length, i)
      case Some(k) => FirstInWay(areas, guess, length, k)
      case None => NoneInWay(areas, guess, length)
    decreases length - i
  {
    hide Within;
    if Probed(length, i) {
      if KeyAt(areas, PageAt(guess, i)).None? {
        assert PageFree(areas, guess, i);
        ConflictIsFirst(areas, guess, length, i + 1);
      }
    }
  }

  // A jump of the scan: past the length of the first area in the way.
  ghost predicate Jump(areas: map<nat, Extent>, from: nat, to: nat, length: nat) {
    exists k :: k in areas && FirstInWay(areas, from, length, k) && to == from + areas[k].len
  }

  /** The guesses of a scan that ends at dest: each is one jump on from the one before, all but
      the first and the last are below the bound, and the last is one with nothing in the way, or
      at or past the bound. */
  ghost predicate Trail(areas: map<nat, Extent>, trail: seq<nat>, length: nat, bound: nat, free: bool) {
    && trail != []
    && (forall i :: 0 <= i < |trail| - 1 ==> Jump(areas, trail[i], trail[i + 1], length))
    && (forall i :: 0 < i < |trail| - 1 ==> trail[i] < bound)
    && (if free then NoneInWay(areas, trail[|trail| - 1], length) && (1 < |trail| ==> trail[|trail| - 1] < bound)
        else 1 < |trail| && bound <= trail[|trail| - 1])
  }

  /** Where the scan ends. */
  lemma {:induction false} ScanTrail(areas: map<nat, Extent>, guess: nat, length: nat, bound: nat)
    returns (trail: seq<nat>)
    requires Spaced(areas)
    ensures var r := Scan(areas, guess, length, bound);
      Trail(areas, trail, length, bound, r.1) && trail[0] == guess && trail[|trail| - 1] == r.0
    decreases bound - guess
  {
    hide Conflict, FirstInWay, NoneInWay, Spaced;
    ConflictIsFirst(areas, guess, length, 0);
    trail := [guess];
    if Conflict(areas, guess, length, 0).Some? {
      var k := ConflictArea(areas, guess, length);
      var next := guess + areas[k].len;
      assert Jump(areas, guess, next, length);
      if next < bound {
        var rest := ScanTrail(areas, next, length, bound);
        trail := [guess] + rest;
      } else {
        trail := [guess, next];
      }
    }
  }

  // An area overlapping a stretch of whole pages holds the start of one of them.
  lemma OverlapHasPage(areas: map<nat, Extent>, k: nat, a: nat, n: nat) returns (j: nat)
    requires k in areas && WholePages(k) && WholePages(areas[k].len) && 0 < areas[k].len && WholePages(a)
    requires WholePages(n)
    requires k < a + n && a < k + areas[k].len
    ensures (j == 0 || j < n / PAGE_SIZE) && Within(areas, k, PageAt(a, j))
  {
    if k <= a {
      j := 0;
    } else {
      j := (k - a) / PAGE_SIZE;
    }
  }

  /** Probing every page of a stretch of whole pages finds every area in the way. */
  lemma NoConflictIsFree(areas: map<nat, Extent>, guess: nat, length: nat)
    requires Spaced(areas) && WholePages(guess) && WholePages(length)
    requires Conflict(areas, guess, length, 0).None?
    ensures FreeRange(areas, guess, length)
  {
    NoConflict(areas, guess, length, 0);
    forall k | k in areas ensures k + areas[k].len <= guess || guess + length <= k {
      if k < guess + length && guess < k + areas[k].len {
        var j := OverlapHasPage(areas, k, guess, length);
      }
    }
  }

  lemma {:induction false} ConflictWhere(areas: map<nat, Extent>, guess: nat, length: nat, i: nat)
    requires Conflict(areas, guess, length, i).Some?
    ensures exists a :: guess <= a && Within(areas, Conflict(areas, guess, length, i).value, a)
    decreases length - i
  {
    if KeyAt(areas, PageAt(guess, i)).None? {
      ConflictWhere(areas, guess, length, i + 1);
    } else {
      assert guess <= PageAt(guess, i);
    }
  }

  // The area in the way ends beyond the guess.
  lemma ConflictArea(areas: map<nat, Extent>, guess: nat, length: nat) returns (k: nat)
    requires Spaced(areas) && Conflict(areas, guess, length, 0).Some?
    ensures k in areas && Conflict(areas, guess, length, 0) == Some(k)
    ensures WholePages(areas[k].len) && 0 < areas[k].len && guess < k + areas[k].len
  {
    hide Conflict;
    ConflictWhere(areas, guess, length, 0);
    k := Conflict(areas, guess, length, 0).value;
  }

  /** A scan that ends without a conflict has found room; so has every scan as long as no area
      lies beyond the bound. */
  lemma {:induction false} ScanFindsRoom(areas: map<nat, Extent>, guess: nat, length: nat, bound: nat)
    requires Spaced(areas) && WholePages(guess) && WholePages(length)
    ensures var r := Scan(areas, guess, length, bound);
      && WholePages(r.0)
      && (r.1 || (forall k :: k in areas ==> k + areas[k].len <= bound) ==> FreeRange(areas, r.0, length))
    decreases bound - guess
  {
    hide Conflict, Spaced, FreeRange;
    if Conflict(areas, guess, length, 0).None? {
      NoConflictIsFree(areas, guess, length);
    } else {
      var k := ConflictArea(areas, guess, length);
      var next := guess + areas[k].len;
      if next < bound {
        ScanFindsRoom(areas, next, length, bound);
      } else {
        PastAll(areas, next, length, bound);
      }
    }
  }

  lemma PastAll(areas: map<nat, Extent>, next: nat, length: nat, bound: nat)
    requires bound <= next
    ensures (forall k :: k in areas ==> k + areas[k].len <= bound) ==> FreeRange(areas, next, length)
  {
  }

  /** Every jump starts below the end of some area and is as long as some area. */
  lemma {:induction false} ScanNear(areas: map<nat, Extent>, guess: nat, length: nat, bound: nat)
    requires Spaced(areas)
    ensures var dest := Scan(areas, guess, length, bound).0;
      dest == guess || exists j, k :: j in areas && k in areas && dest < j + areas[j].len + areas[k].len
    decreases bound - guess
  {
    hide Conflict, Spaced;
    if Conflict(areas, guess, length, 0).Some? {
      var k := ConflictArea(areas, guess, length);
      var next := guess + areas[k].len;
      assert next < k + areas[k].len + areas[k].len;
      if next < bound {
        ScanNear(areas, next, length, bound);
      }
    }
  }

  // A scan that ends without a conflict ends at a free page.
  lemma {:induction false} ScanFree(areas: map<nat, Extent>, guess: nat, length: nat, bound: nat)
    requires Spaced(areas)
    ensures var r := Scan(areas, guess, length, bound); r.1 ==> KeyAt(areas, r.0).None?
    decreases bound - guess
  {
    hide Spaced, KeyAt;
    assert PageAt(guess, 0) == guess;
    if Conflict(areas, guess, length, 0).Some? {
      var k := ConflictArea(areas, guess, length);
      if guess + areas[k].len < bound {
        ScanFree(areas, guess + areas[k].len, length, bound);
      }
    }
  }

  // No area starts further inside.
  ghost predicate NoneInside(areas: map<nat, Extent>, a: nat, n: nat) {
    forall k :: k in areas ==> !(a < k < a + n)
  }

  /** Checking the first page alone is enough exactly when no area starts further inside. */
  lemma FirstPageOnly(areas: map<nat, Extent>, a: nat, n: nat)
    requires KeyAt(areas, a).None? && 0 < n
    ensures FreeRange(areas, a, n) <==> NoneInside(areas, a, n)
  {
    forall k | k in areas ensures !(k <= a < k + areas[k].len) {
      assert !Within(areas, k, a);
    }
  }

  /** What the scan hands back fits exactly when it found no conflict or none starts further
      inside than the first page, which is checked again. */
  lemma ScanFits(areas: map<nat, Extent>, last: nat, n: nat, bound: nat)
    requires Spaced(areas) && WholePages(last) && WholePages(n) && 0 < n
    ensures var (dest, free) := Scan(areas, last, n, bound);
      && WholePages(dest)
      && (KeyAt(areas, dest).None? ==>
        (Fits(areas, dest, n) <==> dest + n <= TOP && (free || NoneInside(areas, dest, n))))
  {
    hide Spaced, Scan, KeyAt, FreeRange;
    ScanFindsRoom(areas, last, n, bound);
    var dest := Scan(areas, last, n, bound).0;
    if KeyAt(areas, dest).None? {
      FirstPageOnly(areas, dest, n);
    }
  }

  /** All areas, and the place where the next scan starts, lie below the bound. */
  ghost predicate Low(areas: map<nat, Extent>, last: nat, bound: nat) {
    && WholePages(last) && last <= bound
    && forall k :: k in areas ==> k + areas[k].len <= bound
  }

  /** Then the scan always hands back a range where the new area fits. */
  lemma LowFits(areas: map<nat, Extent>, last: nat, n: nat, bound: nat)
    requires Spaced(areas) && Low(areas, last, bound) && bound <= TOP / 4
    requires WholePages(n) && 0 < n <= TOP / 2
    ensures Fits(areas, Scan(areas, last, n, bound).0, n)
  {
    hide Spaced, Scan, FreeRange;
    ScanFindsRoom(areas, last, n, bound);
    ScanNear(areas, last, n, bound);
  }

  lemma LowMore(areas: map<nat, Extent>, last: nat, a: nat, e: Extent, bound: nat)
    requires a !in areas && Low(areas, last, bound) && WholePages(a + e.len)
    ensures Low(areas[a := e], a + e.len, bound) <==> a + e.len <= bound
  {
  }

  // ---------- Where a request ends up ----------

  datatype Placed = At(addr: nat) | NoSpace | InvalidArg

  // At its address, or else where the scan ends; only the first page is checked.
  ghost function Chosen(areas: map<nat, Extent>, last: nat, addr: nat, n: nat): Placed
    requires Spaced(areas)
  {
    var dest := if addr == 0 then Scan(areas, last, n, UPPER_BOUND).0 else addr;
    if addr == 0 && dest == UPPER_BOUND then NoSpace
    else if KeyAt(areas, dest).Some? then InvalidArg
    else At(dest)
  }

  // The answer for a place: there, unless an area holds it.
  ghost predicate AnswerFor(areas: map<nat, Extent>, dest: nat, r: Placed) {
    r == if (forall k :: k in areas ==> !Within(areas, k, dest)) then At(dest) else InvalidArg
  }

  /** The answer to a request: for the address given; or else for the place where the guesses end,
      unless that is the upper bound itself. */
  ghost predicate Answered(areas: map<nat, Extent>, last: nat, addr: nat, n: nat, r: Placed) {
    if addr != 0 then AnswerFor(areas, addr, r)
    else
      exists trail, free ::
        && Trail(areas, trail, n, UPPER_BOUND, free) && trail[0] == last
        && if trail[|trail| - 1] == UPPER_BOUND then r == NoSpace else AnswerFor(areas, trail[|trail| - 1], r)
  }

  /** Every request is answered like that. */
  lemma ChosenAnswers(areas: map<nat, Extent>, last: nat, addr: nat, n: nat)
    requires Spaced(areas)
    ensures Answered(areas, last, addr, n, Chosen(areas, last, addr, n))
  {
    hide Trail, Scan, Spaced;
    var trail := ScanTrail(areas, last, n, UPPER_BOUND);
  }

  lemma FreePage(areas: map<nat, Extent>, a: nat)
    requires Spaced(areas) && KeyAt(areas, a).None?
    ensures a !in areas
  {
    assert a in areas ==> Within(areas, a, a);
  }

  // The area in the way is the one at the last page of four.
  lemma ConflictAtEnd(areas: map<nat, Extent>, guess: nat, k: nat)
    requires Spaced(areas) && Within(areas, k, PageAt(guess, 3))
    requires forall j :: 0 <= j < 3 ==> KeyAt(areas, PageAt(guess, j)).None?
    ensures Conflict(areas, guess, 4 * PAGE_SIZE, 0) == Some(k)
  {
    hide Spaced;
    KeyIs(areas, k, PageAt(guess, 3));
    assert Conflict(areas, guess, 4 * PAGE_SIZE, 3) == Some(k);
    assert Conflict(areas, guess, 4 * PAGE_SIZE, 2) == Some(k);
    assert Conflict(areas, guess, 4 * PAGE_SIZE, 1) == Some(k);
  }

  /** With an area beyond the bound the scan can stop on a conflict, and the range it hands
      back passes the check of its first page although it overlaps that area. */
  lemma ScanCanOverlap(areas: map<nat, Extent>, bound: nat)
    requires Spaced(areas) && WholePages(bound) && PAGE_SIZE <= bound
    requires bound + 2 * PAGE_SIZE in areas && areas[bound + 2 * PAGE_SIZE].len == 2 * PAGE_SIZE
    requires forall k :: k in areas && k != bound + 2 * PAGE_SIZE ==> k + areas[k].len <= bound - PAGE_SIZE
    ensures var guess, length := bound - PAGE_SIZE, 4 * PAGE_SIZE;
      Scan(areas, guess, length, bound) == (bound + PAGE_SIZE, false)
      && KeyAt(areas, bound + PAGE_SIZE).None? && !FreeRange(areas, bound + PAGE_SIZE, length)
  {
    hide Conflict;
    ConflictAtEnd(areas, bound - PAGE_SIZE, bound + 2 * PAGE_SIZE);
  }

  // With nothing at or above the start, the scan ends where it starts.
  lemma ScanStays(areas: map<nat, Extent>, guess: nat, length: nat, bound: nat)
    requires Spaced(areas) && forall k :: k in areas ==> k + areas[k].len <= guess
    ensures Scan(areas, guess, length, bound) == (guess, true) && KeyAt(areas, guess).None?
  {
    if Conflict(areas, guess, length, 0).Some? {
      ConflictWhere(areas, guess, length, 0);
    }
  }
}
