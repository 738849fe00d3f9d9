/** Which rooms and exits the random draws give, step by step: what each part of the generation
    adds, as a relation between the draws it uses and the rooms before and after. */
module GameDraws {
  import opened Wrappers
  import opened RoomGraph

  const MAX_ROOM_LINKS: nat := 20
  const MIN_ROOMS: nat := 5
  const MAX_ROOMS: nat := 15
  const MIN_LOOP_LINKS: nat := 1
  const MAX_LOOP_LINKS: nat := 3

  // The rooms at some point of the generation, and the number of draws used up to there.
  datatype Point = Point(rooms: Rooms, next: nat)

  // The number below k that draw p gives.
  function Drawn(draws: seq<nat>, p: nat, k: nat): nat {
    if p < |draws| && 0 < k then draws[p] % k else 0
  }

  // A room with one more exit.
  function OneMore(rooms: Rooms, r: nat, e: Exit): Rooms {
    if r < |rooms| then rooms[r := rooms[r] + [e]] else rooms
  }

  // ---------- Free directions ----------

  function Turn(start: nat, n: nat): nat { (start + n) % DIRECTIONS }

  // The first direction from start on, going round, that is free.
  ghost predicate FirstFree(exits: seq<Exit>, start: nat, d: nat) {
    exists n: nat {:trigger Turn(start, n)} :: n < DIRECTIONS && d == Turn(start, n) && !Used(exits, d)
      && forall m: nat {:trigger Turn(start, m)} :: m < n ==> Used(exits, Turn(start, m))
  }

  ghost predicate SomeFree(exits: seq<Exit>) { exists d: nat :: d < DIRECTIONS && !Used(exits, d) }

  ghost predicate LowestFree(exits: seq<Exit>, d: nat) {
    !Used(exits, d) && forall c: nat :: c < d ==> Used(exits, c)
  }

  // A direction in which one room can be left and the other entered.
  ghost predicate Fits(there: seq<Exit>, back: seq<Exit>, d: nat) { !Used(there, d) && !Used(back, Back(d)) }

  ghost predicate Linkable(there: seq<Exit>, back: seq<Exit>) {
    exists d: nat :: d < DIRECTIONS && Fits(there, back, d)
  }

  // The first such direction from start on, going round.
  ghost predicate FirstFit(there: seq<Exit>, back: seq<Exit>, start: nat, d: nat) {
    exists n: nat {:trigger Turn(start, n)} :: n < DIRECTIONS && d == Turn(start, n) && Fits(there, back, d)
      && forall m: nat {:trigger Turn(start, m)} :: m < n ==> !Fits(there, back, Turn(start, m))
  }

  lemma TurnNext(start: nat, n: nat)
    ensures (Turn(start, n) + 1) % DIRECTIONS == Turn(start, n + 1)
    ensures start < DIRECTIONS ==> Turn(start, 0) == start
  {
  }

  lemma Turned(start: nat, d: nat) returns (n: nat)
    requires start < DIRECTIONS && d < DIRECTIONS
    ensures n < DIRECTIONS && d == Turn(start, n)
  {
    n := if start <= d then d - start else d + DIRECTIONS - start;
  }

  lemma AllTurned(exits: seq<Exit>, start: nat)
    requires start < DIRECTIONS
    requires forall m: nat {:trigger Turn(start, m)} :: m < DIRECTIONS ==> Used(exits, Turn(start, m))
    ensures !SomeFree(exits)
  {
    forall d: nat | d < DIRECTIONS ensures Used(exits, d) {
      var n := Turned(start, d);
    }
  }

  lemma NotLinkable(there: seq<Exit>, back: seq<Exit>, start: nat)
    requires start < DIRECTIONS
    requires forall m: nat {:trigger Turn(start, m)} :: m < DIRECTIONS ==> !Fits(there, back, Turn(start, m))
    ensures !Linkable(there, back)
  {
    forall d: nat | d < DIRECTIONS ensures !Fits(there, back, d) {
      var n := Turned(start, d);
    }
  }

  // ---------- A circle of rooms ----------

  // A room of the circle: its exits, the direction of the way on, whether the way leads back, and
  // the number of draws used up to there.
  datatype Step = Step(exits: seq<Exit>, dir: nat, links: nat, next: nat)

  // The door between this room and the next is decided by draw q.
  ghost predicate DoorAt(draws: seq<nat>, base: nat, i: nat, n: nat, s: Step, q: nat) {
    var door, last := Drawn(draws, q, 3) == 0, i + 1 == n;
    && s.next == q + (if door && !last then 2 else 1) <= |draws|
    && s.links == (if !door then 1 else if last then 0 else Drawn(draws, q + 1, 3))
    && s.exits != []
    && s.exits[|s.exits| - 1] == Exit(s.dir, To(base + if last then 0 else i + 1), if door then Door else Plain)
  }

  // From the last room a way leads back unless it was entered in the direction kept for the first
  // room; from another room if the way to it does. The way on is the one opposite to the way in, or,
  // if there is a way back, the first one drawn that is not the way back.
  ghost predicate RoomDrawn(draws: seq<nat>, base: nat, i: nat, n: nat, first: nat, dir: nat, links: nat, p: nat,
                            s: Step) {
    var last := i + 1 == n;
    var back := 0 < i && if last then dir != first else links != 0;
    && (if back then |s.exits| == 2 && s.exits[0] == Exit(Back(dir), To(base + i - 1), Plain) else |s.exits| == 1)
    && (if back && !last then
          exists q: nat :: DoorAt(draws, base, i, n, s, q) && OtherDrawn(draws, p, q, Back(dir), s.dir)
        else DoorAt(draws, base, i, n, s, p) && s.dir == Back(if last then first else dir))
  }

  // The first direction drawn that is not d.
  ghost predicate OtherDrawn(draws: seq<nat>, p: nat, q: nat, d: nat, r: nat) {
    && p < q <= |draws| && r == Drawn(draws, q - 1, DIRECTIONS) != d
    && forall j: nat :: p <= j < q - 1 ==> Drawn(draws, j, DIRECTIONS) == d
  }

  ghost predicate CircleSteps(draws: seq<nat>, base: nat, n: nat, first: nat, steps: seq<Step>) {
    forall i: nat {:trigger steps[i]} :: i + 1 < |steps| ==>
      RoomDrawn(draws, base, i, n, first, steps[i].dir, steps[i].links, steps[i].next, steps[i + 1])
  }

  // The first rooms of the circle, after the direction drawn to enter it.
  ghost predicate StepsTaken(draws: seq<nat>, a: Point, rooms: Rooms, n: nat, steps: seq<Step>) {
    && steps != [] && |a.rooms| + |steps| - 1 <= |rooms| && rooms[..|a.rooms|] == a.rooms
    && steps[0].dir == Drawn(draws, a.next, DIRECTIONS) && steps[0].links == 0 && steps[0].next == a.next + 1
    && CircleSteps(draws, |a.rooms|, n, Back(steps[0].dir), steps)
    && forall r: nat :: |a.rooms| <= r < |a.rooms| + |steps| - 1 ==> rooms[r] == steps[r - |a.rooms| + 1].exits
  }

  /** n new rooms in a circle, each leading on to the next. */
  ghost predicate CircleDrawn(draws: seq<nat>, a: Point, b: Point, n: nat) {
    exists steps: seq<Step> ::
      && |steps| == n + 1 && steps[n].next == b.next && |b.rooms| == |a.rooms| + n
      && StepsTaken(draws, a, b.rooms, n, steps)
  }

  lemma FirstStep(draws: seq<nat>, a: Point, rooms: Rooms, n: nat) returns (steps: seq<Step>)
    requires |a.rooms| <= |rooms| && rooms[..|a.rooms|] == a.rooms
    ensures steps == [Step([], Drawn(draws, a.next, DIRECTIONS), 0, a.next + 1)]
    ensures StepsTaken(draws, a, rooms, n, steps)
  {
    steps := [Step([], Drawn(draws, a.next, DIRECTIONS), 0, a.next + 1)];
  }

  lemma OneStepMore(draws: seq<nat>, a: Point, rooms: Rooms, n: nat, steps: seq<Step>, s: Step)
    requires StepsTaken(draws, a, rooms, n, steps) && |a.rooms| + |steps| <= |rooms|
    requires var i, t := |steps| - 1, steps[|steps| - 1];
      RoomDrawn(draws, |a.rooms|, i, n, Back(steps[0].dir), t.dir, t.links, t.next, s)
    ensures StepsTaken(draws, a, rooms[|a.rooms| + |steps| - 1 := s.exits], n, steps + [s])
  {
    hide RoomDrawn;
    assert rooms[|a.rooms| + |steps| - 1 := s.exits][..|a.rooms|] == a.rooms;
  }

  lemma CircleClosed(draws: seq<nat>, a: Point, b: Point, n: nat, steps: seq<Step>)
    requires StepsTaken(draws, a, b.rooms, n, steps) && |steps| == n + 1 && steps[n].next == b.next
    requires |b.rooms| == |a.rooms| + n
    ensures CircleDrawn(draws, a, b, n)
  {
  }

  /** A teleporter in a room drawn among n, in the first direction free from the one drawn on. */
  ghost predicate TeleporterDrawn(draws: seq<nat>, a: Point, b: Point, base: nat, n: nat) {
    var i := base + Drawn(draws, a.next, n);
    && b.next == a.next + 2 <= |draws| && i < |a.rooms|
    && exists d: nat ::
         && FirstFree(a.rooms[i], Drawn(draws, a.next + 1, DIRECTIONS), d)
         && b.rooms == OneMore(a.rooms, i, Exit(d, Unset, Teleporter))
  }

  /** A circle of five to fourteen rooms, and a teleporter in one of them. */
  ghost predicate LoopDrawn(draws: seq<nat>, a: Point, b: Point) {
    var n := MIN_ROOMS + Drawn(draws, a.next, MAX_ROOMS - MIN_ROOMS);
    exists c: Point ::
      CircleDrawn(draws, a.(next := a.next + 1), c, n) && TeleporterDrawn(draws, c, b, |a.rooms|, n)
  }

  lemma LoopIs(draws: seq<nat>, a: Point, c: Point, b: Point, n: nat)
    requires n == MIN_ROOMS + Drawn(draws, a.next, MAX_ROOMS - MIN_ROOMS)
    requires CircleDrawn(draws, a.(next := a.next + 1), c, n) && TeleporterDrawn(draws, c, b, |a.rooms|, n)
    ensures LoopDrawn(draws, a, b)
  {
  }

  // ---------- Doors one way ----------

  // A door in the first direction free from start on; none if all are in use.
  ghost predicate DoorTried(before: Rooms, after: Rooms, from: nat, to: nat, start: nat) {
    from < |before| &&
    if SomeFree(before[from]) then
      exists d: nat :: FirstFree(before[from], start, d) && after == OneMore(before, from, Exit(d, To(to), Door))
    else after == before
  }

  // The two stretches of rooms between which doors are tried.
  datatype Stretch = Stretch(to: nat, toCount: nat, from: nat, fromCount: nat)

  // The rooms of the attempt whose draws start at p.
  function ToRoom(draws: seq<nat>, s: Stretch, p: nat): nat { s.to + Drawn(draws, p, s.toCount) }

  function FromRoom(draws: seq<nat>, s: Stretch, p: nat): nat { s.from + Drawn(draws, p + 1, s.fromCount) }

  // The place of draw number 3k after start.
  function Third(start: nat, k: nat): nat { start + 3 * k }

  // Attempt number i uses three draws.
  ghost predicate TriedAt(draws: seq<nat>, p: nat, s: Stretch, before: Rooms, after: Rooms, i: nat) {
    var q := Third(p, i);
    DoorTried(before, after, FromRoom(draws, s, q), ToRoom(draws, s, q), Drawn(draws, q + 2, DIRECTIONS))
  }

  // The rooms before the first attempt, and after each.
  ghost predicate DoorsTried(draws: seq<nat>, p: nat, s: Stretch, log: seq<Rooms>) {
    forall i: nat {:trigger log[i]} :: i + 1 < |log| ==> TriedAt(draws, p, s, log[i], log[i + 1], i)
  }

  /** As many attempts as the first draw says. */
  ghost predicate DoorsLogged(draws: seq<nat>, a: Point, b: Point, s: Stretch, log: seq<Rooms>) {
    var n := Drawn(draws, a.next, MAX_ROOM_LINKS);
    && b.next == a.next + 1 + 3 * n <= |draws|
    && |log| == n + 1 && log[0] == a.rooms && log[n] == b.rooms
    && DoorsTried(draws, a.next + 1, s, log)
  }

  ghost predicate DoorsDrawn(draws: seq<nat>, a: Point, b: Point, s: Stretch) {
    exists log :: DoorsLogged(draws, a, b, s, log)
  }

  // A door leads from one room to the other, or all directions of the one are in use.
  ghost predicate DoorOrFull(rooms: Rooms, from: nat, to: nat) {
    from < |rooms| && (!SomeFree(rooms[from]) || HasDoor(rooms[from], to))
  }

  ghost predicate HasDoor(exits: seq<Exit>, to: nat) {
    exists i :: 0 <= i < |exits| && exits[i].place == To(to) && exits[i].kind == Door
  }

  lemma DoorStays(exits: seq<Exit>, exits': seq<Exit>, to: nat)
    requires exits <= exits'
    ensures HasDoor(exits, to) ==> HasDoor(exits', to)
    ensures SomeFree(exits') ==> SomeFree(exits)
  {
    if HasDoor(exits, to) {
      var i :| 0 <= i < |exits| && exits[i].place == To(to) && exits[i].kind == Door;
      assert exits'[i] == exits[i];
    }
    forall d: nat | Used(exits, d) ensures Used(exits', d) {
      var i :| 0 <= i < |exits| && exits[i].dir == d;
      assert exits'[i].dir == d;
    }
  }

  lemma DoorOrFullStays(rooms: Rooms, rooms': Rooms, from: nat, to: nat)
    requires DoorOrFull(rooms, from, to) && Grows(rooms, rooms')
    ensures DoorOrFull(rooms', from, to)
  {
    hide HasDoor, SomeFree;
    DoorStays(rooms[from], rooms'[from], to);
  }

  lemma DoorTriedSeen(before: Rooms, after: Rooms, from: nat, to: nat, start: nat)
    requires DoorTried(before, after, from, to, start)
    ensures Grows(before, after) && |after| == |before| && DoorOrFull(after, from, to)
  {
    hide FirstFree, SomeFree;
    if SomeFree(before[from]) {
      var d: nat :| FirstFree(before[from], start, d) && after == OneMore(before, from, Exit(d, To(to), Door));
      assert after[from][|before[from]|] == Exit(d, To(to), Door);
    }
  }

  // All exits of all rooms.
  function ExitCount(rooms: Rooms): nat {
    if rooms == [] then 0 else |rooms[0]| + ExitCount(rooms[1..])
  }

  lemma {:induction false} OneMoreCount(rooms: Rooms, r: nat, e: Exit)
    requires r < |rooms|
    ensures ExitCount(OneMore(rooms, r, e)) == ExitCount(rooms) + 1
  {
    var more := OneMore(rooms, r, e);
    if r == 0 {
      assert more[1..] == rooms[1..];
    } else {
      OneMoreCount(rooms[1..], r - 1, e);
      assert more[1..] == OneMore(rooms[1..], r - 1, e);
    }
  }

  // Attempt number i found a free direction, or would find one.
  ghost predicate MetAt(draws: seq<nat>, p: nat, s: Stretch, rooms: Rooms, i: nat) {
    var from := FromRoom(draws, s, Third(p, i));
    from < |rooms| && SomeFree(rooms[from])
  }

  ghost function Met(draws: seq<nat>, p: nat, s: Stretch, log: seq<Rooms>): set<nat> {
    set i: nat | i + 1 < |log| && MetAt(draws, p, s, log[i], i)
  }

  // What attempt number i was to bring about.
  ghost predicate SeenAt(draws: seq<nat>, p: nat, s: Stretch, rooms: Rooms, i: nat) {
    var q := Third(p, i);
    DoorOrFull(rooms, FromRoom(draws, s, q), ToRoom(draws, s, q))
  }

  ghost predicate AllSeen(draws: seq<nat>, p: nat, s: Stretch, rooms: Rooms, n: nat) {
    forall i: nat :: i < n ==> SeenAt(draws, p, s, rooms, i)
  }

  lemma OneTried(draws: seq<nat>, p: nat, s: Stretch, before: Rooms, after: Rooms, i: nat)
    requires TriedAt(draws, p, s, before, after, i)
    ensures Grows(before, after) && |after| == |before| && SeenAt(draws, p, s, after, i)
    ensures ExitCount(after) == ExitCount(before) + if MetAt(draws, p, s, before, i) then 1 else 0
  {
    hide FirstFree, SomeFree;
    var q := Third(p, i);
    var from, to, start := FromRoom(draws, s, q), ToRoom(draws, s, q), Drawn(draws, q + 2, DIRECTIONS);
    DoorTriedSeen(before, after, from, to, start);
    if SomeFree(before[from]) {
      var d: nat :| FirstFree(before[from], start, d) && after == OneMore(before, from, Exit(d, To(to), Door));
      OneMoreCount(before, from, Exit(d, To(to), Door));
    }
  }

  lemma GrowsNot(rooms: Rooms)
    ensures Grows(rooms, rooms)
  {
  }

  lemma SeenStays(draws: seq<nat>, p: nat, s: Stretch, rooms: Rooms, rooms': Rooms, i: nat)
    requires SeenAt(draws, p, s, rooms, i) && Grows(rooms, rooms')
    ensures SeenAt(draws, p, s, rooms', i)
  {
    var q := Third(p, i);
    DoorOrFullStays(rooms, rooms', FromRoom(draws, s, q), ToRoom(draws, s, q));
  }

  /** Every attempt has its door, or the room it was to lead from has no direction left; and there
      are as many new exits as attempts that met a free direction. */
  lemma {:induction false} DoorsSeen(draws: seq<nat>, p: nat, s: Stretch, log: seq<Rooms>, n: nat)
    requires DoorsTried(draws, p, s, log) && |log| == n + 1
    ensures Grows(log[0], log[n]) && |log[n]| == |log[0]|
    ensures AllSeen(draws, p, s, log[n], n)
    ensures ExitCount(log[n]) == ExitCount(log[0]) + |Met(draws, p, s, log)|
    decreases n
  {
    hide TriedAt, SeenAt, MetAt, Grows, ExitCount;
    if n == 0 {
      GrowsNot(log[0]);
      MetNone(draws, p, s, log);
    } else {
      var rest, last := log[..n], n - 1;
      DoorsSeen(draws, p, s, rest, last);
      OneTried(draws, p, s, log[last], log[n], last);
      GrowsMore(log[0], log[last], log[n]);
      forall i: nat | i < last ensures SeenAt(draws, p, s, log[n], i) {
        SeenStays(draws, p, s, log[last], log[n], i);
      }
      MetNext(draws, p, s, log, last);
    }
  }

  lemma MetNone(draws: seq<nat>, p: nat, s: Stretch, log: seq<Rooms>)
    requires |log| == 1
    ensures |Met(draws, p, s, log)| == 0
  {
    assert Met(draws, p, s, log) == {};
  }

  lemma MetNext(draws: seq<nat>, p: nat, s: Stretch, log: seq<Rooms>, i: nat)
    requires |log| == i + 2
    ensures |Met(draws, p, s, log)|
         == |Met(draws, p, s, log[..i + 1])| + if MetAt(draws, p, s, log[i], i) then 1 else 0
  {
    hide MetAt;
    assert Met(draws, p, s, log) == Met(draws, p, s, log[..i + 1]) + if MetAt(draws, p, s, log[i], i) then {i} else {};
  }

  // ---------- Links both ways ----------

  // The three draws from place p on give two rooms that can be linked.
  ghost predicate LinkHit(rooms: Rooms, mainCount: nat, newCount: nat, draws: seq<nat>, p: nat) {
    && p + 3 <= |draws| && 0 < mainCount && 0 < newCount && mainCount + newCount <= |rooms|
    && Linkable(rooms[Drawn(draws, p, mainCount)], rooms[mainCount + Drawn(draws, p + 1, newCount)])
  }

  // The first three draws that do so, from p on, are at q.
  ghost predicate FirstHit(rooms: Rooms, mainCount: nat, newCount: nat, draws: seq<nat>, p: nat, q: nat) {
    exists k: nat {:trigger Third(p, k)} ::
      && q == Third(p, k) && LinkHit(rooms, mainCount, newCount, draws, q)
      && forall j: nat {:trigger Third(p, j)} :: j < k ==> !LinkHit(rooms, mainCount, newCount, draws, Third(p, j))
  }

  function KindOf(draw: nat): Kind {
    if draw == 0 then PowerDoor else if draw == 1 then WheelLockDoor else KeyDoor
  }

  // A door from room x in direction d to room y, and a way back.
  function BothWays(rooms: Rooms, x: nat, y: nat, d: nat, kind: Kind): Rooms {
    OneMore(OneMore(rooms, x, Exit(d, To(y), kind)), y, Exit(Back(d), To(x), Plain))
  }

  // The rooms and the direction that the draws at q give.
  ghost predicate LinkAt(draws: seq<nat>, rooms: Rooms, mainCount: nat, newCount: nat, q: nat, x: nat, y: nat, d: nat) {
    && x == Drawn(draws, q, mainCount) && y == mainCount + Drawn(draws, q + 1, newCount)
    && x < |rooms| && y < |rooms| && FirstFit(rooms[x], rooms[y], Drawn(draws, q + 2, DIRECTIONS), d)
  }

  /** The first rooms drawn that can be linked are linked, in the first direction that fits from the
      one drawn on; one more draw gives the kind of the door. */
  ghost predicate LinkDrawn(draws: seq<nat>, a: Point, b: Point, mainCount: nat, newCount: nat) {
    exists q: nat, x: nat, y: nat, d: nat ::
      && FirstHit(a.rooms, mainCount, newCount, draws, a.next, q)
      && LinkAt(draws, a.rooms, mainCount, newCount, q, x, y, d)
      && b.rooms == BothWays(a.rooms, x, y, d, KindOf(Drawn(draws, q + 3, 3)))
      && b.next == q + 4 <= |draws|
  }

  /** One link, or two. */
  ghost predicate LinksDrawn(draws: seq<nat>, a: Point, b: Point, mainCount: nat, newCount: nat) {
    exists log: seq<Point> ::
      && |log| == MIN_LOOP_LINKS + Drawn(draws, a.next, MAX_LOOP_LINKS - MIN_LOOP_LINKS) + 1
      && log[0] == a.(next := a.next + 1) && log[|log| - 1] == b
      && LinksLogged(draws, log, mainCount, newCount)
  }

  ghost predicate LinksLogged(draws: seq<nat>, log: seq<Point>, mainCount: nat, newCount: nat) {
    forall i: nat {:trigger log[i]} :: i + 1 < |log| ==> LinkDrawn(draws, log[i], log[i + 1], mainCount, newCount)
  }

  // ---------- The whole game ----------

  // The draw at place p gives a room with a free direction.
  ghost predicate FreeHit(rooms: Rooms, draws: seq<nat>, p: nat) {
    p < |draws| && rooms != [] && SomeFree(rooms[Drawn(draws, p, |rooms|)])
  }

  // The way out in the given direction, and the exit as one more room.
  ghost predicate WithExit(before: Rooms, rooms: Rooms, r: nat, d: nat) {
    rooms == OneMore(before, r, Exit(d, WayOut, KeyDoor)) + [[]]
  }

  /** The first room drawn with a free direction gets the way out, in the lowest one. */
  ghost predicate ExitDrawn(draws: seq<nat>, a: Point, b: Point, r: nat) {
    && a.next < b.next && FreeHit(a.rooms, draws, b.next - 1) && r == Drawn(draws, b.next - 1, |a.rooms|) < |a.rooms|
    && (forall p: nat :: a.next <= p < b.next - 1 ==> !FreeHit(a.rooms, draws, p))
    && exists d: nat :: LowestFree(a.rooms[r], d) && WithExit(a.rooms, b.rooms, r, d)
  }

  // Doors among n rooms from base on, and doors from these back to the rooms before them.
  function Inside(base: nat, n: nat): Stretch { Stretch(base, n, base, n) }

  function BackFrom(base: nat, n: nat): Stretch { Stretch(0, base, base, n) }

  // The rooms from base on are the new ones: links with the others, doors inside, and doors back.
  ghost predicate NewLinks(draws: seq<nat>, base: nat, a: Point, b: Point) {
    base <= |a.rooms| && LinksDrawn(draws, a, b, base, |a.rooms| - base)
  }

  ghost predicate NewDoors(draws: seq<nat>, base: nat, a: Point, b: Point) {
    base <= |a.rooms| && DoorsDrawn(draws, a, b, Inside(base, |a.rooms| - base))
  }

  ghost predicate DoorsBack(draws: seq<nat>, base: nat, a: Point, b: Point) {
    base <= |a.rooms| && DoorsDrawn(draws, a, b, BackFrom(base, |a.rooms| - base))
  }

  /** One more loop: its rooms, its links with the others, and its doors. */
  ghost predicate MoreDrawn(draws: seq<nat>, a: Point, b: Point) {
    exists c: Point, d: Point, e: Point ::
      && LoopDrawn(draws, a, c) && NewLinks(draws, |a.rooms|, c, d)
      && NewDoors(draws, |a.rooms|, d, e) && DoorsBack(draws, |a.rooms|, e, b)
  }

  /** The first loop and its doors. */
  ghost predicate FirstDrawn(draws: seq<nat>, a: Point, b: Point) {
    exists c: Point :: LoopDrawn(draws, a, c) && NewDoors(draws, 0, c, b)
  }

  ghost predicate LoopsDrawn(draws: seq<nat>, log: seq<Point>) {
    forall i: nat {:trigger log[i]} :: i + 1 < |log| ==> MoreDrawn(draws, log[i], log[i + 1])
  }

  /** Seven loops and the way out. */
  ghost predicate GameDrawn(draws: seq<nat>, a: Point, b: Point, exit: nat) {
    exists log: seq<Point> ::
      && |log| == 7 && FirstDrawn(draws, a, log[0]) && LoopsDrawn(draws, log)
      && ExitDrawn(draws, log[6], b, exit)
  }

  // ---------- The parts put together ----------

  lemma DoorsAre(draws: seq<nat>, a: Point, b: Point, s: Stretch, log: seq<Rooms>)
    requires DoorsLogged(draws, a, b, s, log)
    ensures DoorsDrawn(draws, a, b, s)
  {
  }

  lemma HitIs(rooms: Rooms, mainCount: nat, newCount: nat, draws: seq<nat>, p: nat, k: nat, d: nat)
    requires LinkHit(rooms, mainCount, newCount, draws, Third(p, k))
    requires forall j: nat {:trigger Third(p, j)} :: j < k ==> !LinkHit(rooms, mainCount, newCount, draws, Third(p, j))
    requires var q := Third(p, k);
      FirstFit(rooms[Drawn(draws, q, mainCount)], rooms[mainCount + Drawn(draws, q + 1, newCount)],
               Drawn(draws, q + 2, DIRECTIONS), d)
    ensures FirstHit(rooms, mainCount, newCount, draws, p, Third(p, k))
    ensures var q := Third(p, k);
      LinkAt(draws, rooms, mainCount, newCount, q, Drawn(draws, q, mainCount),
             mainCount + Drawn(draws, q + 1, newCount), d)
  {
  }

  lemma LinkIs(draws: seq<nat>, a: Point, b: Point, mainCount: nat, newCount: nat, q: nat, x: nat, y: nat, d: nat)
    requires FirstHit(a.rooms, mainCount, newCount, draws, a.next, q)
    requires LinkAt(draws, a.rooms, mainCount, newCount, q, x, y, d)
    requires b.rooms == BothWays(a.rooms, x, y, d, KindOf(Drawn(draws, q + 3, 3))) && b.next == q + 4 <= |draws|
    ensures LinkDrawn(draws, a, b, mainCount, newCount)
  {
  }

  lemma FirstIs(draws: seq<nat>, a: Point, c: Point, b: Point, log: seq<Rooms>)
    requires LoopDrawn(draws, a, c) && DoorsLogged(draws, c, b, Inside(0, |c.rooms|), log)
    ensures FirstDrawn(draws, a, b)
  {
    hide LoopDrawn, DoorsLogged;
  }

  lemma MoreIs(draws: seq<nat>, a: Point, c: Point, d: Point, e: Point, b: Point)
    requires |a.rooms| <= |c.rooms| == |d.rooms| == |e.rooms|
    requires LoopDrawn(draws, a, c) && LinksDrawn(draws, c, d, |a.rooms|, |c.rooms| - |a.rooms|)
    requires DoorsDrawn(draws, d, e, Inside(|a.rooms|, |d.rooms| - |a.rooms|))
    requires DoorsDrawn(draws, e, b, BackFrom(|a.rooms|, |e.rooms| - |a.rooms|))
    ensures MoreDrawn(draws, a, b)
  {
    hide LoopDrawn, LinksDrawn, DoorsDrawn;
    assert NewLinks(draws, |a.rooms|, c, d) && NewDoors(draws, |a.rooms|, d, e) && DoorsBack(draws, |a.rooms|, e, b);
  }

  // ---------- What is left of the attempts ----------

  // A stage of the game at which doors are tried: the place of its first draw, and where.
  datatype Stage = Stage(at: nat, stretch: Stretch)

  // All its attempts have their doors in these rooms, or met a room that is full.
  ghost predicate StageSeen(draws: seq<nat>, rooms: Rooms, t: Stage) {
    AllSeen(draws, t.at + 1, t.stretch, rooms, Drawn(draws, t.at, MAX_ROOM_LINKS))
  }

  ghost predicate StagesSeen(draws: seq<nat>, rooms: Rooms, stages: seq<Stage>) {
    forall k :: 0 <= k < |stages| ==> StageSeen(draws, rooms, stages[k])
  }

  lemma AllStay(draws: seq<nat>, p: nat, s: Stretch, rooms: Rooms, rooms': Rooms, n: nat)
    requires AllSeen(draws, p, s, rooms, n) && Grows(rooms, rooms')
    ensures AllSeen(draws, p, s, rooms', n)
  {
    hide Grows, SeenAt;
    forall i: nat | i < n ensures SeenAt(draws, p, s, rooms', i) {
      SeenStays(draws, p, s, rooms, rooms', i);
    }
  }

  lemma StagesStay(draws: seq<nat>, rooms: Rooms, rooms': Rooms, stages: seq<Stage>)
    requires StagesSeen(draws, rooms, stages) && Grows(rooms, rooms')
    ensures StagesSeen(draws, rooms', stages)
  {
    hide Grows, AllSeen;
    forall k | 0 <= k < |stages| ensures StageSeen(draws, rooms', stages[k]) {
      var t := stages[k];
      AllStay(draws, t.at + 1, t.stretch, rooms, rooms', Drawn(draws, t.at, MAX_ROOM_LINKS));
    }
  }

  lemma OneMoreGrows(rooms: Rooms, r: nat, e: Exit)
    ensures Grows(rooms, OneMore(rooms, r, e))
  {
  }

  lemma CircleGrows(draws: seq<nat>, a: Point, b: Point, n: nat)
    requires CircleDrawn(draws, a, b, n)
    ensures Grows(a.rooms, b.rooms)
  {
    hide CircleSteps;
    forall r | 0 <= r < |a.rooms| ensures a.rooms[r] <= b.rooms[r] {
      assert b.rooms[..|a.rooms|][r] == a.rooms[r];
    }
  }

  lemma LoopGrows(draws: seq<nat>, a: Point, b: Point)
    requires LoopDrawn(draws, a, b)
    ensures Grows(a.rooms, b.rooms)
  {
    hide CircleDrawn, FirstFree, OneMore, Grows;
    var n := MIN_ROOMS + Drawn(draws, a.next, MAX_ROOMS - MIN_ROOMS);
    var c: Point :|
      CircleDrawn(draws, a.(next := a.next + 1), c, n) && TeleporterDrawn(draws, c, b, |a.rooms|, n);
    CircleGrows(draws, a.(next := a.next + 1), c, n);
    var i := |a.rooms| + Drawn(draws, c.next, n);
    var d: nat :| b.rooms == OneMore(c.rooms, i, Exit(d, Unset, Teleporter));
    OneMoreGrows(c.rooms, i, Exit(d, Unset, Teleporter));
    GrowsMore(a.rooms, c.rooms, b.rooms);
  }

  lemma BothWaysGrow(rooms: Rooms, x: nat, y: nat, d: nat, kind: Kind)
    ensures var b := BothWays(rooms, x, y, d, kind); Grows(rooms, b) && |b| == |rooms|
  {
    var more := OneMore(rooms, x, Exit(d, To(y), kind));
    OneMoreGrows(rooms, x, Exit(d, To(y), kind));
    OneMoreGrows(more, y, Exit(Back(d), To(x), Plain));
    GrowsMore(rooms, more, BothWays(rooms, x, y, d, kind));
  }

  lemma LinkGrows(draws: seq<nat>, a: Point, b: Point, mainCount: nat, newCount: nat)
    requires LinkDrawn(draws, a, b, mainCount, newCount)
    ensures Grows(a.rooms, b.rooms) && |b.rooms| == |a.rooms|
  {
    hide FirstHit, LinkAt, Grows, BothWays;
    var q: nat, x: nat, y: nat, d: nat :|
      && FirstHit(a.rooms, mainCount, newCount, draws, a.next, q)
      && LinkAt(draws, a.rooms, mainCount, newCount, q, x, y, d)
      && b.rooms == BothWays(a.rooms, x, y, d, KindOf(Drawn(draws, q + 3, 3)));
    BothWaysGrow(a.rooms, x, y, d, KindOf(Drawn(draws, q + 3, 3)));
  }

  lemma {:induction false} LogGrows(draws: seq<nat>, log: seq<Point>, mainCount: nat, newCount: nat, k: nat)
    requires LinksLogged(draws, log, mainCount, newCount) && k < |log|
    ensures Grows(log[0].rooms, log[k].rooms) && |log[k].rooms| == |log[0].rooms|
  {
    hide LinkDrawn, Grows;
    if k == 0 {
      GrowsNot(log[0].rooms);
    } else {
      LogGrows(draws, log, mainCount, newCount, k - 1);
      LinkGrows(draws, log[k - 1], log[k], mainCount, newCount);
      GrowsMore(log[0].rooms, log[k - 1].rooms, log[k].rooms);
    }
  }

  lemma DoorsStaged(draws: seq<nat>, a: Point, b: Point, s: Stretch)
    requires DoorsDrawn(draws, a, b, s)
    ensures Grows(a.rooms, b.rooms) && |b.rooms| == |a.rooms| && StageSeen(draws, b.rooms, Stage(a.next, s))
  {
    hide DoorsTried, AllSeen, Grows;
    var log :| DoorsLogged(draws, a, b, s, log);
    DoorsSeen(draws, a.next + 1, s, log, |log| - 1);
  }

  lemma FirstStaged(draws: seq<nat>, a: Point, b: Point) returns (t: Stage)
    requires FirstDrawn(draws, a, b)
    ensures StageSeen(draws, b.rooms, t)
  {
    hide LoopDrawn, DoorsDrawn, StageSeen, Grows;
    var c: Point :| LoopDrawn(draws, a, c) && NewDoors(draws, 0, c, b);
    t := Stage(c.next, Inside(0, |c.rooms|));
    DoorsStaged(draws, c, b, t.stretch);
  }

  lemma MoreStaged(draws: seq<nat>, a: Point, b: Point) returns (t: Stage, u: Stage)
    requires MoreDrawn(draws, a, b)
    ensures Grows(a.rooms, b.rooms) && StageSeen(draws, b.rooms, t) && StageSeen(draws, b.rooms, u)
  {
    hide LoopDrawn, DoorsDrawn, LinksLogged, StageSeen, Grows;
    var c: Point, d: Point, e: Point :|
      && LoopDrawn(draws, a, c) && NewLinks(draws, |a.rooms|, c, d)
      && NewDoors(draws, |a.rooms|, d, e) && DoorsBack(draws, |a.rooms|, e, b);
    var base, n := |a.rooms|, |c.rooms| - |a.rooms|;
    LoopGrows(draws, a, c);
    var log: seq<Point> :|
      && |log| == MIN_LOOP_LINKS + Drawn(draws, c.next, MAX_LOOP_LINKS - MIN_LOOP_LINKS) + 1
      && log[0] == c.(next := c.next + 1) && log[|log| - 1] == d && LinksLogged(draws, log, base, n);
    LogGrows(draws, log, base, n, |log| - 1);
    t, u := Stage(d.next, Inside(base, n)), Stage(e.next, BackFrom(base, n));
    DoorsStaged(draws, d, e, t.stretch);
    DoorsStaged(draws, e, b, u.stretch);
    StagesStay(draws, e.rooms, b.rooms, [t]);
    assert StageSeen(draws, b.rooms, [t][0]);
    GrowsMore(a.rooms, c.rooms, d.rooms);
    GrowsMore(a.rooms, d.rooms, e.rooms);
    GrowsMore(a.rooms, e.rooms, b.rooms);
  }

  lemma {:induction false} LoopsStaged(draws: seq<nat>, a: Point, log: seq<Point>, k: nat) returns (stages: seq<Stage>)
    requires k < |log| && FirstDrawn(draws, a, log[0]) && LoopsDrawn(draws, log)
    ensures |stages| == 2 * k + 1 && StagesSeen(draws, log[k].rooms, stages)
  {
    hide FirstDrawn, MoreDrawn, StageSeen, Grows;
    if k == 0 {
      var t := FirstStaged(draws, a, log[0]);
      stages := [t];
    } else {
      var before := LoopsStaged(draws, a, log, k - 1);
      var t, u := MoreStaged(draws, log[k - 1], log[k]);
      StagesStay(draws, log[k - 1].rooms, log[k].rooms, before);
      stages := before + [t, u];
    }
  }

  /** Thirteen times doors are tried, and all that these attempts were to bring about is there in
      the end. */
  lemma GameStaged(draws: seq<nat>, a: Point, b: Point, exit: nat) returns (stages: seq<Stage>)
    requires GameDrawn(draws, a, b, exit)
    ensures |stages| == 13 && StagesSeen(draws, b.rooms, stages)
  {
    hide FirstDrawn, LoopsDrawn, StagesSeen, FreeHit, LowestFree;
    var log: seq<Point> :|
      |log| == 7 && FirstDrawn(draws, a, log[0]) && LoopsDrawn(draws, log) && ExitDrawn(draws, log[6], b, exit);
    stages := LoopsStaged(draws, a, log, 6);
    var d: nat :| WithExit(log[6].rooms, b.rooms, exit, d);
    StagesStay(draws, log[6].rooms, b.rooms, stages);
  }
}
