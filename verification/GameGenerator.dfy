/** The random generation of the game's rooms, for any outcome of the random draws. */
module GameGenerator {
  import opened Wrappers
  import opened RoomGraph
  import opened GameDraws

  // What generation comes to: a value, or not yet anything when the draws run out.
  datatype Outcome<T> = Finished(value: T) | Unfinished {
    predicate IsFailure() { Unfinished? }

    function PropagateFailure<U>(): Outcome<U>
      requires IsFailure()
    {
      Unfinished
    }

    function Extract(): T
      requires !IsFailure()
    {
      value
    }
  }

  // The directions in use, lowest bit first.
  type Mask = m: seq<bool> | |m| == DIRECTIONS witness seq(DIRECTIONS, _ => false)

  ghost predicate MaskOf(m: Mask, exits: seq<Exit>) {
    forall d :: 0 <= d < DIRECTIONS ==> (m[d] <==> Used(exits, d))
  }

  // The first i rooms of the circle are done, the others are still empty.
  ghost predicate Partial(before: Rooms, rooms: Rooms, n: nat, i: nat) {
    var base := |before|;
    && |rooms| == base + n && i <= n && Good(rooms)
    && (forall r :: 0 <= r < base ==> rooms[r] == before[r])
    && (forall r :: 0 <= r < i ==> InCircle(rooms, base, n, r))
    && (forall r :: base <= r < base + i ==> |rooms[r]| <= 2)
    && (forall r :: base + i <= r < base + n ==> rooms[r] == [])
  }

  lemma EmptyRooms(before: Rooms, n: nat)
    requires Good(before)
    ensures Partial(before, before + seq(n, _ => []), n, 0) && Grows(before, before + seq(n, _ => []))
  {
    var rooms := before + seq(n, _ => []);
    forall r | 0 <= r < |rooms| ensures Distinct(rooms[r]) && InRange(rooms[r], |rooms|) {
      assert rooms[r] == if r < |before| then before[r] else [];
    }
  }

  // A room of the first stretch and one of the second that can be linked.
  ghost predicate CanLink(rooms: Rooms, mainCount: nat, newCount: nat, a: nat, b: nat) {
    a < mainCount && b < newCount && mainCount + newCount <= |rooms| && Linkable(rooms[a], rooms[mainCount + b])
  }

  /** Whatever has been drawn, more draws can end the search for a link exactly when some two
      rooms can be linked. */
  lemma LinkSearchEnds(rooms: Rooms, mainCount: nat, newCount: nat, draws: seq<nat>)
    requires 0 < mainCount && 0 < newCount && mainCount + newCount <= |rooms|
    ensures (exists more: seq<nat> :: LinkHit(rooms, mainCount, newCount, draws + more, |draws|))
       <==> exists a: nat, b: nat :: CanLink(rooms, mainCount, newCount, a, b)
  {
    hide Linkable;
    if a: nat, b: nat :| CanLink(rooms, mainCount, newCount, a, b) {
      Small(a, mainCount);
      Small(b, newCount);
      assert LinkHit(rooms, mainCount, newCount, draws + [a, b, 0], |draws|);
    }
    if more: seq<nat> :| LinkHit(rooms, mainCount, newCount, draws + more, |draws|) {
      var a, b := Drawn(draws + more, |draws|, mainCount), Drawn(draws + more, |draws| + 1, newCount);
      assert CanLink(rooms, mainCount, newCount, a, b);
    }
  }

  /** And the search for a place of the way out exactly when some room has a free direction. */
  lemma FreeSearchEnds(rooms: Rooms, draws: seq<nat>)
    ensures (exists more: seq<nat> :: FreeHit(rooms, draws + more, |draws|))
       <==> exists r :: 0 <= r < |rooms| && SomeFree(rooms[r])
  {
    hide SomeFree;
    if r: nat :| r < |rooms| && SomeFree(rooms[r]) {
      Small(r, |rooms|);
      assert FreeHit(rooms, draws + [r], |draws|);
    }
    if more: seq<nat> :| FreeHit(rooms, draws + more, |draws|) {
      var r := Drawn(draws + more, |draws|, |rooms|);
      assert r < |rooms| && SomeFree(rooms[r]);
    }
  }

  lemma Small(a: nat, n: nat)
    requires a < n
    ensures a % n == a
  {
  }

  // A door to a room, if it has been added at all.
  ghost predicate DoorAdded(before: Rooms, rooms: Rooms, from: nat, to: nat) {
    rooms == before || exists d: nat :: rooms == OneMore(before, from, Exit(d, To(to), Door))
  }

  lemma NoDoors(rooms: Rooms, from: nat, fromCount: nat, to: nat, toCount: nat)
    ensures DoorsBetween(rooms, rooms, from, fromCount, to, toCount)
  {
  }

  lemma DoorsMore(before: Rooms, rooms: Rooms, rooms': Rooms, from: nat, fromCount: nat, to: nat, toCount: nat, a: nat,
      b: nat)
    requires DoorsBetween(before, rooms, from, fromCount, to, toCount) && DoorAdded(rooms, rooms', a, b)
    requires from <= a < from + fromCount && to <= b < to + toCount && a < |rooms|
    ensures DoorsBetween(before, rooms', from, fromCount, to, toCount)
  {
    if rooms' != rooms {
      var d: nat :| rooms' == OneMore(rooms, a, Exit(d, To(b), Door));
      hide OnlyDoors;
      forall r | 0 <= r < |rooms'| ensures OnlyDoors(before[r], rooms'[r], r, from, fromCount, to, toCount) {
        assert OnlyDoors(before[r], rooms[r], r, from, fromCount, to, toCount);
        if r == a {
          OnlyDoorsMore(before[r], rooms[r], Exit(d, To(b), Door), r, from, fromCount, to, toCount);
        }
      }
    }
  }

  lemma OnlyDoorsMore(before: seq<Exit>, exits: seq<Exit>, e: Exit, r: nat, from: nat, fromCount: nat, to: nat,
      toCount: nat)
    requires OnlyDoors(before, exits, r, from, fromCount, to, toCount)
    requires from <= r < from + fromCount && e.kind == Door && e.place.To? && to <= e.place.room < to + toCount
    ensures OnlyDoors(before, exits + [e], r, from, fromCount, to, toCount)
  {
    assert before <= exits <= exits + [e];
  }

  // The exits that a room has got are doors to rooms of the stretch.
  ghost predicate OnlyDoors(before: seq<Exit>, exits: seq<Exit>, r: nat, from: nat, fromCount: nat, to: nat,
      toCount: nat) {
    before <= exits
    && forall k :: |before| <= k < |exits| ==>
         from <= r < from + fromCount && exits[k].kind == Door && exits[k].place.To?
         && to <= exits[k].place.room < to + toCount
  }

  // Nothing but doors from one stretch to another has been added.
  ghost predicate DoorsBetween(before: Rooms, rooms: Rooms, from: nat, fromCount: nat, to: nat, toCount: nat) {
    |rooms| == |before|
    && forall r :: 0 <= r < |rooms| ==> OnlyDoors(before[r], rooms[r], r, from, fromCount, to, toCount)
  }

  // One more room of the circle gets its way forward, and perhaps one back.
  lemma RoomDone(before: Rooms, rooms: Rooms, n: nat, i: nat, exits: seq<Exit>)
    requires Partial(before, rooms, n, i) && i < n && 1 <= |exits| <= 2
    requires Distinct(exits) && InRange(exits, |rooms|)
    requires exits[|exits| - 1].place == To(|before| + (if i + 1 == n then 0 else i + 1))
    ensures Partial(before, rooms[|before| + i := exits], n, i + 1)
  {
    var base, rooms' := |before|, rooms[|before| + i := exits];
    forall r | 0 <= r < i ensures InCircle(rooms', base, n, r) {
      assert InCircle(rooms, base, n, r);
      assert rooms'[base + r] == rooms[base + r];
    }
    assert rooms'[base + i][|exits| - 1].place == exits[|exits| - 1].place;
    assert InCircle(rooms', base, n, i);
    assert Good(rooms');
  }

  lemma CircleDone(before: Rooms, rooms: Rooms, n: nat)
    requires Partial(before, rooms, n, n)
    ensures Connected(rooms, |before|, |before| + n) && Grows(before, rooms)
  {
    CircleConnected(rooms, |before|, n);
  }

  lemma SomeUnused(exits: seq<Exit>)
    requires |exits| <= 2
    ensures SomeFree(exits)
  {
    if Used(exits, 0) && Used(exits, 1) && Used(exits, 2) {
      var a :| 0 <= a < |exits| && exits[a].dir == 0;
      var b :| 0 <= b < |exits| && exits[b].dir == 1;
      var c :| 0 <= c < |exits| && exits[c].dir == 2;
    }
  }

  ghost predicate HasWayOut(exits: seq<Exit>) {
    exists i :: 0 <= i < |exits| && exits[i].place == WayOut
  }

  lemma WithEmptyRoom(rooms: Rooms)
    requires Good(rooms)
    ensures Good(rooms + [[]]) && Grows(rooms, rooms + [[]])
  {
    var rooms' := rooms + [[]];
    forall r | 0 <= r < |rooms'| ensures Distinct(rooms'[r]) && InRange(rooms'[r], |rooms'|) {
      assert rooms'[r] == if r < |rooms| then rooms[r] else [];
    }
  }

  lemma SortedIsGood(rooms: Rooms, r: nat, sorted: seq<Exit>)
    requires Good(rooms) && r < |rooms| && Ordered(sorted, 0) && multiset(sorted) == multiset(rooms[r])
    ensures Good(rooms[r := sorted])
  {
    forall i | 0 <= i < |sorted|
      ensures sorted[i].dir < DIRECTIONS && (sorted[i].place.To? ==> sorted[i].place.room < |rooms|)
    {
      assert sorted[i] in multiset(sorted);
      var j :| 0 <= j < |rooms[r]| && rooms[r][j] == sorted[i];
    }
  }

  // The rooms below k are sorted and have lost nothing, the others are as before.
  ghost predicate SortedUpTo(before: Rooms, rooms: Rooms, k: nat) {
    && |rooms| == |before|
    && (forall r :: 0 <= r < k && r < |rooms| ==> rooms[r] == ByDirection(before[r], 0))
    && (forall r :: 0 <= r < k && r < |rooms| ==> Ordered(rooms[r], 0) && multiset(rooms[r]) == multiset(before[r]))
    && (forall r :: k <= r < |rooms| ==> rooms[r] == before[r])
  }

  lemma SortOne(before: Rooms, rooms: Rooms, k: nat)
    requires Good(rooms) && SortedUpTo(before, rooms, k) && k < |rooms|
    ensures var rooms' := rooms[k := ByDirection(rooms[k], 0)]; Good(rooms') && SortedUpTo(before, rooms', k + 1)
  {
    hide ByDirection;
    ByDirectionOrdered(rooms[k], 0);
    SortLosesNone(rooms[k]);
    SortedIsGood(rooms, k, ByDirection(rooms[k], 0));
  }

  lemma SortKeepsLink(before: Rooms, rooms: Rooms, a: nat, b: nat)
    requires SortedUpTo(before, rooms, |rooms|) && Linked(before, a, b)
    ensures Linked(rooms, a, b)
  {
    var i :| 0 <= i < |before[a]| && before[a][i].place == To(b);
    assert before[a][i] in multiset(rooms[a]);
  }

  // Sorting keeps rooms connected, since no exit is lost.
  lemma SortKeepsLinks(before: Rooms, rooms: Rooms, k: nat)
    requires SortedUpTo(before, rooms, |rooms|) && Connected(before, 0, k)
    ensures Connected(rooms, 0, k) && forall i :: 0 <= i < |rooms| ==> Ordered(rooms[i], 0)
  {
    hide Ordered;
    forall a, b | 0 <= a < k && 0 <= b < k ensures Reach(rooms, a, b) {
      assert Reach(before, a, b);
      var p: seq<nat> :| |p| > 0 && p[0] == a && p[|p| - 1] == b && Path(before, p);
      forall i | 0 <= i < |p| - 1 ensures Linked(rooms, p[i], p[i + 1]) {
        SortKeepsLink(before, rooms, p[i], p[i + 1]);
      }
      assert Path(rooms, p);
    }
  }

  lemma SortKeepsWayOut(before: Rooms, rooms: Rooms, r: nat)
    requires SortedUpTo(before, rooms, |rooms|) && r < |before| && HasWayOut(before[r])
    ensures HasWayOut(rooms[r])
  {
    var i :| 0 <= i < |before[r]| && before[r][i].place == WayOut;
    assert before[r][i] in multiset(rooms[r]);
  }

  lemma SortKeepsDoor(exits: seq<Exit>, sorted: seq<Exit>, to: nat)
    requires multiset(sorted) == multiset(exits)
    ensures HasDoor(exits, to) ==> HasDoor(sorted, to)
    ensures SomeFree(sorted) ==> SomeFree(exits)
  {
    if HasDoor(exits, to) {
      var i :| 0 <= i < |exits| && exits[i].place == To(to) && exits[i].kind == Door;
      assert exits[i] in multiset(sorted);
    }
    forall d: nat | Used(exits, d) ensures Used(sorted, d) {
      var i :| 0 <= i < |exits| && exits[i].dir == d;
      assert exits[i] in multiset(sorted);
    }
  }

  lemma SortKeepsSeen(draws: seq<nat>, p: nat, s: Stretch, before: Rooms, rooms: Rooms, n: nat)
    requires AllSeen(draws, p, s, before, n) && SortedUpTo(before, rooms, |rooms|)
    ensures AllSeen(draws, p, s, rooms, n)
  {
    hide ByDirection, Ordered, SomeFree, HasDoor;
    forall i: nat | i < n ensures SeenAt(draws, p, s, rooms, i) {
      assert SeenAt(draws, p, s, before, i);
      var q := Third(p, i);
      var from := FromRoom(draws, s, q);
      SortKeepsDoor(before[from], rooms[from], ToRoom(draws, s, q));
    }
  }

  lemma SortKeepsStages(draws: seq<nat>, before: Rooms, rooms: Rooms, stages: seq<Stage>)
    requires StagesSeen(draws, before, stages) && SortedUpTo(before, rooms, |rooms|)
    ensures StagesSeen(draws, rooms, stages)
  {
    hide SortedUpTo, AllSeen;
    forall k | 0 <= k < |stages| ensures StageSeen(draws, rooms, stages[k]) {
      var t := stages[k];
      SortKeepsSeen(draws, t.at + 1, t.stretch, before, rooms, Drawn(draws, t.at, MAX_ROOM_LINKS));
    }
  }

  lemma ByDirectionStep(exits: seq<Exit>, d: nat)
    requires d < DIRECTIONS
    ensures var i := FirstIn(exits, d);
      ByDirection(exits, d) == (if i.Some? then [exits[i.value]] else []) + ByDirection(exits, d + 1)
  {
  }

  lemma UsedFrom(exits: seq<Exit>, m: Mask)
    requires MaskOf(m, exits)
    ensures forall d :: 0 <= d < DIRECTIONS ==> (m[d] <==> FirstIn(exits, d).Some?)
  {
    forall d | 0 <= d < DIRECTIONS && Used(exits, d) ensures FirstIn(exits, d).Some? {
    }
  }

  lemma StillFound(exits: seq<Exit>, i: nat)
    requires i < |exits|
    ensures forall d: nat :: d != exits[i].dir ==> FirstIn(Without(exits, i), d).Some? == FirstIn(exits, d).Some?
  {
    forall d: nat | d != exits[i].dir ensures FirstIn(Without(exits, i), d).Some? == FirstIn(exits, d).Some? {
      FirstInWithout(exits, i, d);
    }
  }

  lemma {:induction false} NothingFrom(exits: seq<Exit>, d: nat)
    requires forall k :: d <= k < DIRECTIONS ==> FirstIn(exits, k).None?
    ensures ByDirection(exits, d) == []
    decreases DIRECTIONS - d
  {
    if d < DIRECTIONS {
      NothingFrom(exits, d + 1);
    }
  }

  class Generator {
    // What the random source will give.
    const draws: seq<nat>
    var next: nat
    var rooms: Rooms

    constructor (draws: seq<nat>)
      ensures Valid() && rooms == [] && this.draws == draws && next == 0
    {
      this.draws := draws;
      next, rooms := 0, [];
    }

    ghost predicate Valid()
      reads this
    {
      next <= |draws| && Good(rooms)
    }

    ghost function Now(): Point
      reads this
    {
      Point(rooms, next)
    }

    // A random number below k.
    method Draw(k: nat) returns (r: Outcome<nat>)
      requires 0 < k && next <= |draws|
      modifies this`next
      ensures r == if old(next) < |draws| then Finished(draws[old(next)] % k) else Unfinished
      ensures next == if r.Finished? then old(next) + 1 else old(next)
      ensures next <= |draws| && (r.Finished? ==> r.value < k && r.value == Drawn(draws, old(next), k))
      ensures r.Unfinished? ==> next == |draws|
    {
      if next >= |draws| {
        return Unfinished;
      }
      r := Finished(draws[next] % k);
      next := next + 1;
    }

    method GetUsedRoomDirections(r: nat) returns (mask: Mask)
      requires Valid() && r < |rooms|
      ensures MaskOf(mask, rooms[r])
    {
      var ret := seq(DIRECTIONS, _ => false);
      var counter := 0;
      while counter < |rooms[r]|
        invariant counter <= |rooms[r]| && |ret| == DIRECTIONS
        invariant forall d :: 0 <= d < DIRECTIONS ==> (ret[d] <==> Used(rooms[r][..counter], d))
      {
        assert rooms[r][..counter + 1] == rooms[r][..counter] + [rooms[r][counter]];
        UsedMore(rooms[r][..counter], rooms[r][counter]);
        ret := ret[rooms[r][counter].dir := true];
        counter := counter + 1;
      }
      assert rooms[r][..counter] == rooms[r];
      mask := ret;
    }

    static lemma UsedMore(exits: seq<Exit>, e: Exit)
      ensures forall d: nat :: Used(exits + [e], d) <==> Used(exits, d) || d == e.dir
    {
      forall d: nat ensures Used(exits + [e], d) <==> Used(exits, d) || d == e.dir {
        if Used(exits, d) {
          var i :| 0 <= i < |exits| && exits[i].dir == d;
          assert (exits + [e])[i].dir == d;
        }
        if d == e.dir {
          assert (exits + [e])[|exits|].dir == d;
        }
      }
    }

    // A new exit in a direction that is free.
    method Append(r: nat, e: Exit)
      requires Valid() && r < |rooms| && !Used(rooms[r], e.dir)
      requires e.dir < DIRECTIONS && (e.place.To? ==> e.place.room < |rooms|)
      modifies this`rooms
      ensures Valid() && rooms == old(rooms)[r := old(rooms)[r] + [e]]
      ensures Grows(old(rooms), rooms) && (e.place.To? ==> Linked(rooms, r, e.place.room))
    {
      AddedExit(rooms, r, e);
      rooms := rooms[r := rooms[r] + [e]];
    }

    // ---------- One loop of rooms ----------

    /** The exits of room i of a circle: back to the room before, where that is possible, and on
        to the next. The direction to leave the first room in is kept free for it. */
    method RoomExits(base: nat, i: nat, roomCount: nat, first: nat, prev: nat, new_: nat, links: nat)
      returns (r: Outcome<Step>)
      requires next <= |draws| && i < roomCount && 2 <= roomCount && (if i == 0 then links == 0 else new_ == prev)
      requires prev < DIRECTIONS && new_ < DIRECTIONS && first < DIRECTIONS
      modifies this`next
      ensures next <= |draws|
      ensures r.Finished? ==>
        RoomDrawn(draws, base, i, roomCount, first, prev, links, old(next), r.value) && r.value.next == next
      ensures r.Finished? ==> var s := r.value;
        && 1 <= |s.exits| <= 2 && Distinct(s.exits) && InRange(s.exits, base + roomCount) && s.dir < DIRECTIONS
        && s.exits[|s.exits| - 1].place == To(base + if i + 1 == roomCount then 0 else i + 1)
      ensures r.Unfinished? ==> next == |draws|
    {
      var prevRoomLinks, prevDirectionID, newDirectionID: nat := links, prev, new_;
      if i == roomCount - 1 {
        if prevRoomLinks == 0 && first != prevDirectionID {
          prevRoomLinks := 1;
        } else if prevRoomLinks != 0 && prevDirectionID == first {
          prevRoomLinks := 0;
        }
      }
      var exits := [];
      if prevRoomLinks != 0 {
        prevDirectionID := Back(newDirectionID);
        if i == roomCount - 1 {
          newDirectionID := Back(first);
          if prevDirectionID != newDirectionID {
            exits := [Exit(prevDirectionID, To(base + i - 1), Plain)];
          }
        } else {
          exits := [Exit(prevDirectionID, To(base + i - 1), Plain)];
          newDirectionID :- DrawOther(prevDirectionID);
        }
      } else {
        newDirectionID := Back(prevDirectionID);
      }
      ghost var q := next;
      var wasDoor :- Draw(3);
      var kind := Plain;
      if wasDoor == 0 {
        kind := Door;
        if i != roomCount - 1 {
          prevRoomLinks :- Draw(3);
        } else {
          prevRoomLinks := 0;
        }
      } else {
        prevRoomLinks := 1;
      }
      var forward := if i + 1 == roomCount then 0 else i + 1;
      var step := Step(exits + [Exit(newDirectionID, To(base + forward), kind)], newDirectionID, prevRoomLinks, next);
      assert DoorAt(draws, base, i, roomCount, step, q);
      r := Finished(step);
    }

    /** A circle of rooms, each with a way forward and some with a way back. */
    method GenerateCircle(roomCount: nat) returns (r: Outcome<()>)
      requires Valid() && MIN_ROOMS <= roomCount
      modifies this
      ensures next <= |draws|
      ensures r.Finished? ==> Partial(old(rooms), rooms, roomCount, roomCount)
      ensures r.Finished? ==> CircleDrawn(draws, old(Now()), Now(), roomCount)
      ensures r.Unfinished? ==> next == |draws|
    {
      hide InCircle, RoomDrawn, StepsTaken, CircleDrawn, Good;
      ghost var before := rooms;
      var base := |rooms|;
      EmptyRooms(rooms, roomCount);
      rooms := rooms + seq(roomCount, _ => []);
      var prevRoomLinks := 0;
      var prevDirectionID: nat :- Draw(DIRECTIONS);
      var firstDirectionID := Back(prevDirectionID);
      var newDirectionID: nat := 0;
      var i := 0;
      ghost var steps := FirstStep(draws, old(Now()), rooms, roomCount);
      while i < roomCount
        invariant next <= |draws| && i <= roomCount && Partial(before, rooms, roomCount, i)
        invariant prevDirectionID < DIRECTIONS && newDirectionID < DIRECTIONS && firstDirectionID < DIRECTIONS
        invariant if i == 0 then prevRoomLinks == 0 else newDirectionID == prevDirectionID
        invariant |steps| == i + 1
        invariant (steps[i].dir, steps[i].links, steps[i].next) == (prevDirectionID, prevRoomLinks, next)
        invariant StepsTaken(draws, old(Now()), rooms, roomCount, steps) && firstDirectionID == Back(steps[0].dir)
      {
        var step :- RoomExits(base, i, roomCount, firstDirectionID, prevDirectionID, newDirectionID, prevRoomLinks);
        RoomDone(before, rooms, roomCount, i, step.exits);
        OneStepMore(draws, old(Now()), rooms, roomCount, steps, step);
        rooms := rooms[base + i := step.exits];
        prevDirectionID, newDirectionID, prevRoomLinks := step.dir, step.dir, step.links;
        steps := steps + [step];
        i := i + 1;
      }
      CircleClosed(draws, old(Now()), Now(), roomCount, steps);
      r := Finished(());
    }

    // A random direction other than the given one.
    method DrawOther(d: nat) returns (r: Outcome<nat>)
      requires next <= |draws|
      modifies this`next
      ensures next <= |draws|
      ensures r.Finished? ==> r.value < DIRECTIONS && OtherDrawn(draws, old(next), next, d, r.value)
      ensures r.Finished? <==> exists p: nat :: old(next) <= p < |draws| && draws[p] % DIRECTIONS != d
      ensures r.Unfinished? ==> next == |draws|
    {
      var v: nat :- Draw(DIRECTIONS);
      while v == d
        invariant old(next) < next <= |draws| && v < DIRECTIONS && v == draws[next - 1] % DIRECTIONS
        invariant forall p: nat :: old(next) <= p < next - 1 ==> draws[p] % DIRECTIONS == d
        decreases |draws| - next
      {
        v :- Draw(DIRECTIONS);
      }
      r := Finished(v);
    }

    // A random direction that a room with at most two exits has free, and a teleporter there.
    method AddTeleporter(base: nat, n: nat) returns (r: Outcome<()>)
      requires Valid() && 0 < n && base + n <= |rooms|
      requires forall r :: base <= r < base + n ==> |rooms[r]| <= 2
      modifies this
      ensures Valid() && Grows(old(rooms), rooms) && |rooms| == old(|rooms|)
      ensures r.Finished? ==> TeleporterDrawn(draws, old(Now()), Now(), base, n)
      ensures r.Unfinished? ==> next == |draws|
    {
      hide Good, Used, Grows;
      GrowsNot(rooms);
      var i: nat :- Draw(n);
      var newDirectionID: nat :- Draw(DIRECTIONS);
      var mask := GetUsedRoomDirections(base + i);
      ghost var exits := rooms[base + i];
      SomeUnused(exits);
      ghost var start, k := newDirectionID, 0;
      TurnNext(start, 0);
      while mask[newDirectionID]
        invariant k < DIRECTIONS && newDirectionID == Turn(start, k) && rooms == old(rooms) && next == old(next) + 2
        invariant forall m: nat {:trigger Turn(start, m)} :: m < k ==> Used(exits, Turn(start, m))
        decreases DIRECTIONS - k
      {
        NotYetRound(exits, start, k);
        TurnNext(start, k);
        newDirectionID := (newDirectionID + 1) % DIRECTIONS;
        k := k + 1;
      }
      assert FirstFree(exits, start, newDirectionID);
      Append(base + i, Exit(newDirectionID, Unset, Teleporter));
      r := Finished(());
    }

    // Not all directions are in use, so the search does not come round.
    static lemma NotYetRound(exits: seq<Exit>, start: nat, k: nat)
      requires SomeFree(exits) && start < DIRECTIONS && k < DIRECTIONS
      requires forall m: nat {:trigger Turn(start, m)} :: m <= k ==> Used(exits, Turn(start, m))
      ensures k + 1 < DIRECTIONS
    {
      if k + 1 == DIRECTIONS {
        AllTurned(exits, start);
      }
    }

    /** Between 5 and 14 new rooms, each reaching every other. */
    method GenerateRoomLoop() returns (r: Outcome<nat>)
      requires Valid()
      modifies this
      ensures next <= |draws|
      ensures r.Finished? ==> Valid() && Grows(old(rooms), rooms) && MIN_ROOMS <= r.value < MAX_ROOMS
      ensures r.Finished? ==>
        var base := old(|rooms|); |rooms| == base + r.value && Connected(rooms, base, base + r.value)
      ensures r.Finished? ==> LoopDrawn(draws, old(Now()), Now())
      ensures r.Unfinished? ==> next == |draws|
    {
      hide Connected, Grows, Good, CircleDrawn, TeleporterDrawn;
      ghost var before, a := rooms, Now();
      var base := |rooms|;
      var n: nat :- Draw(MAX_ROOMS - MIN_ROOMS);
      assert Now() == a.(next := a.next + 1);
      var roomCount := n + MIN_ROOMS;
      var done :- GenerateCircle(roomCount);
      CircleDone(before, rooms, roomCount);
      ghost var circle, c := rooms, Now();
      var added :- AddTeleporter(base, roomCount);
      ConnectedStays(circle, rooms, base, base + roomCount);
      GrowsMore(before, circle, rooms);
      LoopIs(draws, a, c, Now(), roomCount);
      r := Finished(roomCount);
    }

    // ---------- Links ----------

    // What a step that only adds exits keeps.
    twostate predicate OnlyAdds()
      reads this
    {
      Valid() && Grows(old(rooms), rooms) && |rooms| == |old(rooms)|
    }

    /** Attempts at doors from rooms of one stretch to rooms of another: as many as the first draw says
        below 20, each with three draws. Each has its door in the end, unless the room it was to lead
        from has all directions in use; and every attempt that met a free direction added one exit. */
    method RandomLinkRooms(to: nat, toCount: nat, from: nat, fromCount: nat)
      returns (r: Outcome<()>, ghost log: seq<Rooms>)
      requires Valid() && 0 < toCount && to + toCount <= |rooms| && 0 < fromCount && from + fromCount <= |rooms|
      modifies this
      ensures OnlyAdds() && DoorsBetween(old(rooms), rooms, from, fromCount, to, toCount)
      ensures r.Finished? ==> DoorsLogged(draws, old(Now()), Now(), Stretch(to, toCount, from, fromCount), log)
      ensures r.Finished? ==> next == old(next) + 1 + 3 * Drawn(draws, old(next), 20)
      ensures r.Finished? ==> var s := Stretch(to, toCount, from, fromCount);
        && AllSeen(draws, old(next) + 1, s, rooms, Drawn(draws, old(next), 20))
        && ExitCount(rooms) == ExitCount(old(rooms)) + |Met(draws, old(next) + 1, s, log)|
      ensures r.Unfinished? ==> next == |draws|
    {
      hide Good, DoorsBetween, TriedAt, AllSeen, Met, ExitCount, Grows, DoorAdded;
      ghost var before, p, s := rooms, next + 1, Stretch(to, toCount, from, fromCount);
      NoDoors(rooms, from, fromCount, to, toCount);
      GrowsNot(rooms);
      log := [rooms];
      var randLinks: nat :- Draw(MAX_ROOM_LINKS);
      var i := 0;
      while i < randLinks
        invariant Valid() && Grows(before, rooms) && |rooms| == |before| && i <= randLinks && next == Third(p, i)
        invariant DoorsBetween(before, rooms, from, fromCount, to, toCount)
        invariant |log| == i + 1 && log[0] == before && log[i] == rooms && DoorsTried(draws, p, s, log)
      {
        var tried :- TryDoor(to, toCount, from, fromCount, before, p, i);
        log := log + [rooms];
        i := i + 1;
      }
      DoorsSeen(draws, p, s, log, randLinks);
      r := Finished(());
    }

    // One attempt, number i of those whose draws start at p.
    method TryDoor(to: nat, toCount: nat, from: nat, fromCount: nat, ghost before: Rooms, ghost p: nat, ghost i: nat)
      returns (r: Outcome<()>)
      requires Valid() && 0 < toCount && to + toCount <= |rooms| && 0 < fromCount && from + fromCount <= |rooms|
      requires next == Third(p, i) && Grows(before, rooms) && |rooms| == |before|
      requires DoorsBetween(before, rooms, from, fromCount, to, toCount)
      modifies this
      ensures Valid() && Grows(before, rooms) && |rooms| == |before|
      ensures DoorsBetween(before, rooms, from, fromCount, to, toCount)
      ensures r.Finished? ==> next == Third(p, i + 1)
      ensures r.Finished? ==> TriedAt(draws, p, Stretch(to, toCount, from, fromCount), old(rooms), rooms, i)
      ensures r.Unfinished? ==> next == |draws|
    {
      hide Good, DoorsBetween, DoorTried, Grows, DoorAdded, MaskOf;
      var toRoom: nat :- Draw(toCount);
      var fromRoom: nat :- Draw(fromCount);
      var mask := GetUsedRoomDirections(from + fromRoom);
      var fromRoomNewDir: nat :- Draw(DIRECTIONS);
      LinkIfFree(to + toRoom, from + fromRoom, mask, fromRoomNewDir);
      DoorsMore(before, old(rooms), rooms, from, fromCount, to, toCount, from + fromRoom, to + toRoom);
      GrowsMore(before, old(rooms), rooms);
      r := Finished(());
    }

    // A door in the first free direction from the given one on, if there is one.
    method LinkIfFree(toRoom: nat, fromRoom: nat, mask: Mask, start: nat)
      requires Valid() && toRoom < |rooms| && fromRoom < |rooms| && start < DIRECTIONS && MaskOf(mask, rooms[fromRoom])
      modifies this`rooms
      ensures OnlyAdds() && DoorAdded(old(rooms), rooms, fromRoom, toRoom)
      ensures DoorTried(old(rooms), rooms, fromRoom, toRoom, start)
    {
      var fromRoomNewDir: nat := start;
      var counter := 0;
      TurnNext(start, 0);
      while counter < DIRECTIONS
        invariant counter <= DIRECTIONS && fromRoomNewDir < DIRECTIONS && rooms == old(rooms)
        invariant fromRoomNewDir == Turn(start, counter)
        invariant forall m: nat {:trigger Turn(start, m)} :: m < counter ==> Used(rooms[fromRoom], Turn(start, m))
      {
        if !mask[fromRoomNewDir] {
          Append(fromRoom, Exit(fromRoomNewDir, To(toRoom), Door));
          assert FirstFree(old(rooms)[fromRoom], start, fromRoomNewDir);
          return;
        }
        TurnNext(start, counter);
        fromRoomNewDir := (fromRoomNewDir + 1) % DIRECTIONS;
        counter := counter + 1;
      }
      AllTurned(rooms[fromRoom], start);
    }

    /** A room of each stretch, and a direction free in the one and backwards in the other: found
        with the first draws that give two rooms which can be linked. */
    method FindLink(mainCount: nat, newCount: nat) returns (r: Outcome<(nat, nat, nat)>)
      requires Valid() && 0 < mainCount && 0 < newCount && mainCount + newCount <= |rooms|
      modifies this`next
      ensures Valid()
      ensures r.Finished? ==> var (a, b, d) := r.value;
        && a < mainCount <= b < mainCount + newCount && d < DIRECTIONS && Fits(rooms[a], rooms[b], d)
      ensures r.Finished? ==> var (a, b, d), q := r.value, next - 3;
        && 0 <= q && FirstHit(rooms, mainCount, newCount, draws, old(next), q)
        && LinkAt(draws, rooms, mainCount, newCount, q, a, b, d)
      ensures r.Finished? <==>
        exists k: nat {:trigger Third(old(next), k)} :: LinkHit(rooms, mainCount, newCount, draws, Third(old(next), k))
      ensures r.Unfinished? ==> next == |draws|
    {
      hide Used, Good, Linkable, FirstFit, Fits, FirstHit, LinkAt, MaskOf;
      ghost var k, start := 0, next;
      while true
        invariant Valid() && next == Third(start, k)
        invariant forall j: nat {:trigger Third(start, j)} ::
          j < k ==> !LinkHit(rooms, mainCount, newCount, draws, Third(start, j))
        decreases |draws| - next
      {
        var a: nat :- Draw(mainCount);
        var b: nat :- Draw(newCount);
        b := mainCount + b;
        var roomDir: nat :- Draw(DIRECTIONS);
        var d := LinkDirection(a, b, roomDir);
        assert LinkHit(rooms, mainCount, newCount, draws, Third(start, k)) <==> Linkable(rooms[a], rooms[b]);
        if d.Some? {
          HitIs(rooms, mainCount, newCount, draws, start, k, d.value);
          return Finished((a, b, d.value));
        }
        k := k + 1;
      }
    }

    // The first direction from start on, going round, in which the rooms can be linked.
    method LinkDirection(a: nat, b: nat, start: nat) returns (r: Option<nat>)
      requires Valid() && a < |rooms| && b < |rooms| && start < DIRECTIONS
      ensures r.Some? ==> r.value < DIRECTIONS && Fits(rooms[a], rooms[b], r.value)
      ensures r.Some? ==> FirstFit(rooms[a], rooms[b], start, r.value)
      ensures r.Some? <==> Linkable(rooms[a], rooms[b])
    {
      hide Used, Good;
      var mask0 := GetUsedRoomDirections(a);
      var mask1 := GetUsedRoomDirections(b);
      var roomDir := start;
      TurnNext(start, 0);
      var x := 0;
      while x < DIRECTIONS
        invariant x <= DIRECTIONS && roomDir == Turn(start, x)
        invariant forall m: nat {:trigger Turn(start, m)} :: m < x ==> !Fits(rooms[a], rooms[b], Turn(start, m))
      {
        if !mask0[roomDir] {
          if !mask1[Back(roomDir)] {
            assert Fits(rooms[a], rooms[b], roomDir);
            return Some(roomDir);
          }
        }
        TurnNext(start, x);
        roomDir := (roomDir + 1) % DIRECTIONS;
        x := x + 1;
      }
      NotLinkable(rooms[a], rooms[b], start);
      r := None;
    }

    /** One or two doors from the first stretch into the new one, with ways back. */
    method GenerateLoopLinks(mainCount: nat, newCount: nat) returns (r: Outcome<()>)
      requires Valid() && 0 < mainCount && 0 < newCount && mainCount + newCount <= |rooms|
      requires Connected(rooms, 0, mainCount) && Connected(rooms, mainCount, mainCount + newCount)
      modifies this
      ensures OnlyAdds()
      ensures r.Finished? ==> Connected(rooms, 0, mainCount + newCount)
      ensures r.Finished? ==> LinksDrawn(draws, old(Now()), Now(), mainCount, newCount)
      ensures r.Unfinished? ==> next == |draws|
    {
      hide Connected, Good, Grows, LinkDrawn;
      ghost var before := rooms;
      GrowsNot(rooms);
      var links: nat :- Draw(MAX_LOOP_LINKS - MIN_LOOP_LINKS);
      var linkCount, i := links + MIN_LOOP_LINKS, 0;
      ghost var log := [Now()];
      while i < linkCount
        invariant Valid() && Grows(before, rooms) && |rooms| == |before|
        invariant Connected(rooms, 0, mainCount) && Connected(rooms, mainCount, mainCount + newCount)
        invariant i > 0 ==> Connected(rooms, 0, mainCount + newCount)
        invariant i <= linkCount && |log| == i + 1 && log[0] == Point(before, old(next) + 1) && log[i] == Now()
        invariant LinksLogged(draws, log, mainCount, newCount)
      {
        ghost var rooms1 := rooms;
        var link :- LinkLoops(mainCount, newCount);
        GrowsMore(before, rooms1, rooms);
        ConnectedStays(rooms1, rooms, 0, mainCount);
        ConnectedStays(rooms1, rooms, mainCount, mainCount + newCount);
        Joined(rooms, 0, mainCount, mainCount + newCount, link.0, link.1);
        log := log + [Now()];
        i := i + 1;
      }
      r := Finished(());
    }

    // One of these doors, with its way back, and the rooms that it links.
    method LinkLoops(mainCount: nat, newCount: nat) returns (r: Outcome<(nat, nat)>)
      requires Valid() && 0 < mainCount && 0 < newCount && mainCount + newCount <= |rooms|
      modifies this
      ensures Valid() && Grows(old(rooms), rooms) && |rooms| == |old(rooms)|
      ensures r.Finished? ==> var (a, b) := r.value;
        a < mainCount <= b < mainCount + newCount && Linked(rooms, a, b) && Linked(rooms, b, a)
      ensures r.Finished? ==> LinkDrawn(draws, old(Now()), Now(), mainCount, newCount)
      ensures r.Unfinished? ==> next == |draws| && rooms == old(rooms)
    {
      hide Good, Fits, FirstHit, LinkAt, LinkDrawn, Grows, Linked;
      GrowsNot(rooms);
      var link :- FindLink(mainCount, newCount);
      var (a, b, d) := link;
      ghost var q := next - 3;
      var doorKind: nat :- Draw(3);
      var kind := match doorKind case 0 => PowerDoor case 1 => WheelLockDoor case _ => KeyDoor;
      LinkBothWays(a, b, d, kind);
      LinkIs(draws, old(Now()), Now(), mainCount, newCount, q, a, b, d);
      r := Finished((a, b));
    }

    method LinkBothWays(a: nat, b: nat, d: nat, kind: Kind)
      requires Valid() && a < b < |rooms| && d < DIRECTIONS && Fits(rooms[a], rooms[b], d)
      modifies this`rooms
      ensures OnlyAdds() && Linked(rooms, a, b) && Linked(rooms, b, a)
      ensures rooms == BothWays(old(rooms), a, b, d, kind)
    {
      ghost var before := rooms;
      Append(a, Exit(d, To(b), kind));
      ghost var rooms1 := rooms;
      Append(b, Exit(Back(d), To(a), Plain));
      GrowsMore(before, rooms1, rooms);
      LinkedStays(rooms1, rooms, a, b);
    }

    // ---------- The whole game ----------

    /** The way out: a locked door in the lowest free direction of some room that has one free.
        The exit itself joins the list of rooms, without exits. */
    method AddExitRoom() returns (r: Outcome<nat>)
      requires Valid() && rooms != []
      modifies this
      ensures next <= |draws|
      ensures r.Finished? ==> Valid() && Grows(old(rooms), rooms) && |rooms| == |old(rooms)| + 1
      ensures r.Finished? ==> r.value < |old(rooms)| && HasWayOut(rooms[r.value])
      ensures r.Finished? ==> ExitDrawn(draws, old(Now()), Now(), r.value)
      ensures r.Unfinished? ==> next == |draws|
    {
      ghost var before := rooms;
      var room, mask :- FindFree();
      var curDirection: nat := 0;
      while mask[curDirection]
        invariant curDirection < DIRECTIONS && forall d :: 0 <= d < curDirection ==> mask[d]
        decreases DIRECTIONS - curDirection
      {
        curDirection := curDirection + 1;
      }
      Append(room, Exit(curDirection, WayOut, KeyDoor));
      assert rooms[room][|before[room]|].place == WayOut;
      assert rooms == OneMore(before, room, Exit(curDirection, WayOut, KeyDoor));
      WithEmptyRoom(rooms);
      rooms := rooms + [[]];
      assert LowestFree(before[room], curDirection) && WithExit(before, rooms, room, curDirection);
      r := Finished(room);
    }

    // The first room drawn that has a free direction, and its mask.
    method FindFree() returns (r: Outcome<nat>, mask: Mask)
      requires Valid() && rooms != []
      modifies this`next
      ensures next <= |draws|
      ensures r.Finished? ==> r.value < |rooms| && MaskOf(mask, rooms[r.value]) && false in mask
      ensures r.Finished? ==> old(next) < next && r.value == Drawn(draws, next - 1, |rooms|)
      ensures r.Finished? ==> forall p: nat :: old(next) <= p < next - 1 ==> !FreeHit(rooms, draws, p)
      ensures r.Finished? <==> exists p: nat :: old(next) <= p < |draws| && FreeHit(rooms, draws, p)
      ensures r.Unfinished? ==> next == |draws|
    {
      hide Used, Good;
      mask := seq(DIRECTIONS, _ => true);
      while true
        invariant Valid() && old(next) <= next
        invariant forall p: nat :: old(next) <= p < next ==> !FreeHit(rooms, draws, p)
        decreases |draws| - next
      {
        var room: nat :- Draw(|rooms|);
        mask := GetUsedRoomDirections(room);
        if false in mask {
          assert FreeHit(rooms, draws, next - 1) by { MaskFree(mask, rooms[room]); }
          return Finished(room), mask;
        }
        MaskFull(mask, rooms[room]);
      }
    }

    static lemma MaskFree(mask: Mask, exits: seq<Exit>)
      requires MaskOf(mask, exits) && false in mask
      ensures SomeFree(exits)
    {
      var d :| 0 <= d < |mask| && !mask[d];
    }

    static lemma MaskFull(mask: Mask, exits: seq<Exit>)
      requires MaskOf(mask, exits) && false !in mask
      ensures !SomeFree(exits)
    {
      forall d: nat | d < DIRECTIONS ensures Used(exits, d) {
        assert mask[d] in mask;
      }
    }

    /** Each room's exits in the order of their directions, none lost. */
    method SortRoomDirections()
      requires Valid()
      modifies this`rooms
      ensures Valid() && |rooms| == |old(rooms)|
      ensures SortedUpTo(old(rooms), rooms, |rooms|)
    {
      hide Ordered, ByDirection, Good;
      ghost var before := rooms;
      var roomID := 0;
      while roomID < |rooms|
        invariant roomID <= |rooms| && Valid() && |rooms| == |before|
        invariant SortedUpTo(before, rooms, roomID)
      {
        var mask := GetUsedRoomDirections(roomID);
        var sorted := SortExits(rooms[roomID], mask);
        SortOne(before, rooms, roomID);
        rooms := rooms[roomID := sorted];
        roomID := roomID + 1;
      }
    }

    // For each bit of the mask, the exit in that direction moves to the new list.
    static method SortExits(exits: seq<Exit>, mask: Mask) returns (newRoomDirections: seq<Exit>)
      requires MaskOf(mask, exits)
      ensures newRoomDirections == ByDirection(exits, 0)
    {
      hide ByDirection, FirstIn, MaskOf;
      newRoomDirections := [];
      var roomDirections, usedDirections: seq<bool>, dirID := exits, mask, 0;
      UsedFrom(exits, mask);
      while true in usedDirections
        invariant dirID + |usedDirections| == DIRECTIONS
        invariant forall d ::
          dirID <= d < DIRECTIONS ==> (usedDirections[d - dirID] <==> FirstIn(roomDirections, d).Some?)
        invariant newRoomDirections + ByDirection(roomDirections, dirID) == ByDirection(exits, 0)
        decreases |usedDirections|
      {
        ByDirectionStep(roomDirections, dirID);
        assert usedDirections[0] <==> FirstIn(roomDirections, dirID).Some?;
        if usedDirections[0] {
          var roomDirID := IndexOf(roomDirections, dirID);
          ByDirectionWithout(roomDirections, roomDirID, dirID + 1);
          StillFound(roomDirections, roomDirID);
          newRoomDirections := newRoomDirections + [roomDirections[roomDirID]];
          roomDirections := Without(roomDirections, roomDirID);
        }
        usedDirections := usedDirections[1..];
        dirID := dirID + 1;
      }
      NothingFrom(roomDirections, dirID);
    }

    // The search for the entry that matches a direction.
    static method IndexOf(exits: seq<Exit>, d: nat) returns (i: nat)
      requires FirstIn(exits, d).Some?
      ensures FirstIn(exits, d) == Some(i)
    {
      i := 0;
      while exits[i].dir != d
        invariant i < |exits| && FirstIn(exits[i..], d).Some?
        invariant FirstIn(exits, d) == Some(i + FirstIn(exits[i..], d).value)
        decreases |exits| - i
      {
        assert exits[i..][1..] == exits[i + 1..];
        i := i + 1;
      }
    }

    // A new loop, linked with the rooms so far and among itself.
    method AddLoop() returns (r: Outcome<()>)
      requires Valid() && rooms != [] && Connected(rooms, 0, |rooms|)
      modifies this
      ensures next <= |draws|
      ensures r.Finished? ==> Valid() && Connected(rooms, 0, |rooms|)
      ensures r.Finished? ==> |old(rooms)| + MIN_ROOMS <= |rooms| < |old(rooms)| + MAX_ROOMS
      ensures r.Finished? ==> MoreDrawn(draws, old(Now()), Now())
      ensures r.Unfinished? ==> next == |draws|
    {
      hide Connected, LoopDrawn, LinksDrawn, DoorsLogged, MoreDrawn;
      ghost var a := Now();
      var mainCount := |rooms|;
      var newCount: nat :- GenerateRoomLoop();
      ConnectedStays(a.rooms, rooms, 0, mainCount);
      ghost var c := Now();
      var linked :- GenerateLoopLinks(mainCount, newCount);
      ghost var d := Now();
      var inside, log :- RandomLinkRooms(mainCount, newCount, mainCount, newCount);
      DoorsAre(draws, d, Now(), Inside(mainCount, newCount), log);
      ghost var e := Now();
      var back, log' :- RandomLinkRooms(0, mainCount, mainCount, newCount);
      DoorsAre(draws, e, Now(), BackFrom(mainCount, newCount), log');
      GrowsMore(d.rooms, e.rooms, rooms);
      ConnectedStays(d.rooms, rooms, 0, mainCount + newCount);
      MoreIs(draws, a, c, d, e, Now());
      r := Finished(());
    }

    /** Whatever the draws, if generation finishes: between 35 and 98 rooms and the exit; no room
        has two exits in one direction; every ordinary room reaches every other, and one of them
        has the way out; and each room's exits are in order. The rooms and exits are those that the
        draws give; and at the end every attempt at a door, in each of the 13 stages, has its door,
        unless the room it was to lead from is full. */
    method GenerateGame() returns (r: Outcome<nat>, ghost drawn: Point, ghost stages: seq<Stage>)
      requires Valid() && rooms == []
      modifies this
      ensures r.Finished? ==> var k := |rooms| - 1;
        && Good(rooms) && 7 * MIN_ROOMS <= k <= 7 * (MAX_ROOMS - 1) && Connected(rooms, 0, k)
        && r.value < k && HasWayOut(rooms[r.value])
        && forall i :: 0 <= i < |rooms| ==> Ordered(rooms[i], 0)
      ensures r.Finished? ==>
        GameDrawn(draws, old(Now()), drawn, r.value) && drawn.next == next && SortedUpTo(drawn.rooms, rooms, |rooms|)
      ensures r.Finished? ==> |stages| == 13 && StagesSeen(draws, rooms, stages)
      ensures r.Unfinished? ==> next == |draws|
    {
      hide Connected, Good, HasWayOut, Ordered, SortedUpTo, LoopDrawn, DoorsLogged, MoreDrawn, FirstDrawn, ExitDrawn,
        StagesSeen;
      drawn, stages := Now(), [];
      var first: nat :- GenerateRoomLoop();
      ghost var c := Now();
      var links, doors :- RandomLinkRooms(0, |rooms|, 0, |rooms|);
      FirstIs(draws, old(Now()), c, Now(), doors);
      ConnectedStays(c.rooms, rooms, 0, |rooms|);
      var i := 0;
      ghost var log := [Now()];
      while i < 6
        invariant i <= 6 && Valid() && Connected(rooms, 0, |rooms|)
        invariant (i + 1) * MIN_ROOMS <= |rooms| <= (i + 1) * (MAX_ROOMS - 1)
        invariant |log| == i + 1 && log[i] == Now() && FirstDrawn(draws, old(Now()), log[0]) && LoopsDrawn(draws, log)
      {
        var more :- AddLoop();
        log := log + [Now()];
        i := i + 1;
      }
      var exit: nat :- AddExitRoom();
      ConnectedStays(log[6].rooms, rooms, 0, |log[6].rooms|);
      drawn := Now();
      SortRoomDirections();
      SortKeepsLinks(drawn.rooms, rooms, |log[6].rooms|);
      SortKeepsWayOut(drawn.rooms, rooms, exit);
      stages := GameStaged(draws, old(Now()), drawn, exit);
      SortKeepsStages(draws, drawn.rooms, rooms, stages);
      r := Finished(exit);
    }
  }
}
