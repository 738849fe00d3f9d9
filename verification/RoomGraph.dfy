/** Rooms and the exits between them: directions, reachability, and sorting by direction. */
module RoomGraph {
  import opened Wrappers

  const DIRECTIONS: nat := 8

  datatype Kind = Plain | Door | Teleporter | PowerDoor | WheelLockDoor | KeyDoor

  // Where an exit leads: a room, the way out of the game, or nowhere yet.
  datatype Place = To(room: nat) | WayOut | Unset

  datatype Exit = Exit(dir: nat, place: Place, kind: Kind)

  type Rooms = seq<seq<Exit>>

  // The opposite direction: the lowest bit is flipped.
  function Back(d: nat): (r: nat)
    ensures r != d && (d < DIRECTIONS <==> r < DIRECTIONS)
  {
    if d % 2 == 0 then d + 1 else d - 1
  }

  ghost predicate Distinct(exits: seq<Exit>) {
    forall i, j :: 0 <= i < j < |exits| ==> exits[i].dir != exits[j].dir
  }

  ghost predicate Used(exits: seq<Exit>, d: nat) {
    exists i :: 0 <= i < |exits| && exits[i].dir == d
  }

  ghost predicate InRange(exits: seq<Exit>, count: nat) {
    forall i :: 0 <= i < |exits| ==> exits[i].dir < DIRECTIONS && (exits[i].place.To? ==> exits[i].place.room < count)
  }

  /** No room has two exits in one direction, and every exit leads somewhere. */
  ghost predicate Good(rooms: Rooms) {
    forall r :: 0 <= r < |rooms| ==> Distinct(rooms[r]) && InRange(rooms[r], |rooms|)
  }

  // ---------- Reachability, with doors passable ----------

  ghost predicate Linked(rooms: Rooms, a: nat, b: nat) {
    a < |rooms| && exists i :: 0 <= i < |rooms[a]| && rooms[a][i].place == To(b)
  }

  ghost predicate Path(rooms: Rooms, p: seq<nat>) {
    forall i :: 0 <= i < |p| - 1 ==> Linked(rooms, p[i], p[i + 1])
  }

  ghost predicate Reach(rooms: Rooms, a: nat, b: nat) {
    exists p: seq<nat> :: |p| > 0 && p[0] == a && p[|p| - 1] == b && Path(rooms, p)
  }

  // Every room of a stretch reaches every other.
  ghost predicate Connected(rooms: Rooms, lo: nat, hi: nat) {
    forall a, b :: lo <= a < hi && lo <= b < hi ==> Reach(rooms, a, b)
  }

  lemma ReachSelf(rooms: Rooms, a: nat)
    ensures Reach(rooms, a, a)
  {
    assert Path(rooms, [a]);
  }

  lemma ReachLink(rooms: Rooms, a: nat, b: nat)
    requires Linked(rooms, a, b)
    ensures Reach(rooms, a, b)
  {
    assert Path(rooms, [a, b]);
  }

  lemma ReachTrans(rooms: Rooms, a: nat, b: nat, c: nat)
    requires Reach(rooms, a, b) && Reach(rooms, b, c)
    ensures Reach(rooms, a, c)
  {
    var p: seq<nat> :| |p| > 0 && p[0] == a && p[|p| - 1] == b && Path(rooms, p);
    var q: seq<nat> :| |q| > 0 && q[0] == b && q[|q| - 1] == c && Path(rooms, q);
    var r := p + q[1..];
    forall i | 0 <= i < |r| - 1 ensures Linked(rooms, r[i], r[i + 1]) {
      if i >= |p| - 1 {
        assert r[i] == q[i - (|p| - 1)] && r[i + 1] == q[i + 1 - (|p| - 1)];
      }
    }
    assert Path(rooms, r);
  }

  // ---------- Building ----------

  // Rooms are added and exits appended.
  ghost predicate Grows(rooms: Rooms, rooms': Rooms) {
    |rooms| <= |rooms'| && forall r :: 0 <= r < |rooms| ==> rooms[r] <= rooms'[r]
  }

  lemma GrowsMore(a: Rooms, b: Rooms, c: Rooms)
    requires Grows(a, b) && Grows(b, c)
    ensures Grows(a, c)
  {
    forall r | 0 <= r < |a| ensures a[r] <= c[r] {
      assert a[r] <= b[r] <= c[r];
    }
  }

  lemma LinkedStays(rooms: Rooms, rooms': Rooms, a: nat, b: nat)
    requires Linked(rooms, a, b) && Grows(rooms, rooms')
    ensures Linked(rooms', a, b)
  {
    var i :| 0 <= i < |rooms[a]| && rooms[a][i].place == To(b);
    assert rooms[a] <= rooms'[a];
    assert rooms'[a][i].place == To(b);
  }

  lemma ConnectedStays(rooms: Rooms, rooms': Rooms, lo: nat, hi: nat)
    requires Connected(rooms, lo, hi) && Grows(rooms, rooms')
    ensures Connected(rooms', lo, hi)
  {
    forall a, b | lo <= a < hi && lo <= b < hi ensures Reach(rooms', a, b) {
      assert Reach(rooms, a, b);
      var p: seq<nat> :| |p| > 0 && p[0] == a && p[|p| - 1] == b && Path(rooms, p);
      forall i | 0 <= i < |p| - 1 ensures Linked(rooms', p[i], p[i + 1]) {
        LinkedStays(rooms, rooms', p[i], p[i + 1]);
      }
      assert Path(rooms', p);
    }
  }

  lemma AddedExit(rooms: Rooms, r: nat, e: Exit)
    requires Good(rooms) && r < |rooms| && !Used(rooms[r], e.dir)
    requires e.dir < DIRECTIONS && (e.place.To? ==> e.place.room < |rooms|)
    ensures var rooms' := rooms[r := rooms[r] + [e]];
      Good(rooms') && Grows(rooms, rooms') && (e.place.To? ==> Linked(rooms', r, e.place.room))
  {
    var rooms' := rooms[r := rooms[r] + [e]];
    assert rooms'[r][|rooms[r]|] == e;
  }

  // The exits of a room that belongs to the circle starting at base.
  ghost predicate InCircle(rooms: Rooms, base: nat, n: nat, r: nat) {
    Linked(rooms, base + r, base + (if r + 1 == n then 0 else r + 1))
  }

  lemma {:induction false} Forward(rooms: Rooms, base: nat, n: nat, r: nat, k: nat)
    requires forall i :: 0 <= i < n ==> InCircle(rooms, base, n, i)
    requires r <= k < n
    ensures Reach(rooms, base + r, base + k)
    decreases k - r
  {
    if r == k {
      ReachSelf(rooms, base + r);
    } else {
      assert InCircle(rooms, base, n, r);
      ReachLink(rooms, base + r, base + r + 1);
      Forward(rooms, base, n, r + 1, k);
      ReachTrans(rooms, base + r, base + r + 1, base + k);
    }
  }

  /** A circle is connected. */
  lemma CircleConnected(rooms: Rooms, base: nat, n: nat)
    requires forall i :: 0 <= i < n ==> InCircle(rooms, base, n, i)
    ensures Connected(rooms, base, base + n)
  {
    forall a, b | base <= a < base + n && base <= b < base + n ensures Reach(rooms, a, b) {
      Forward(rooms, base, n, a - base, n - 1);
      assert InCircle(rooms, base, n, n - 1);
      ReachLink(rooms, base + n - 1, base);
      Forward(rooms, base, n, 0, b - base);
      ReachTrans(rooms, a, base + n - 1, base);
      ReachTrans(rooms, a, base, b);
    }
  }

  /** Two connected stretches with a way across in both directions are one. */
  lemma Joined(rooms: Rooms, lo: nat, mid: nat, hi: nat, x: nat, y: nat)
    requires Connected(rooms, lo, mid) && Connected(rooms, mid, hi) && lo <= x < mid <= y < hi
    requires Linked(rooms, x, y) && Linked(rooms, y, x)
    ensures Connected(rooms, lo, hi)
  {
    ReachLink(rooms, x, y);
    ReachLink(rooms, y, x);
    forall a, b | lo <= a < hi && lo <= b < hi ensures Reach(rooms, a, b) {
      if a < mid && mid <= b {
        ReachTrans(rooms, a, x, y);
        ReachTrans(rooms, a, y, b);
      } else if mid <= a && b < mid {
        ReachTrans(rooms, a, y, x);
        ReachTrans(rooms, a, x, b);
      }
    }
  }

  // ---------- Sorting a room's exits ----------

  // The first exit in a direction.
  function FirstIn(exits: seq<Exit>, d: nat): (r: Option<nat>)
    ensures r.Some? ==> r.value < |exits| && exits[r.value].dir == d
    ensures r.None? ==> !Used(exits, d)
  {
    if exits == [] then None
    else if exits[0].dir == d then Some(0)
    else
      var r := FirstIn(exits[1..], d);
      assert r.None? ==> forall i :: 0 <= i < |exits| && exits[i].dir == d ==> exits[1..][i - 1].dir == d;
      if r.Some? then Some(r.value + 1) else None
  }

  // One exit of each direction, in the order of directions.
  function ByDirection(exits: seq<Exit>, d: nat): seq<Exit>
    decreases DIRECTIONS - d
  {
    if d >= DIRECTIONS then []
    else
      var i := FirstIn(exits, d);
      (if i.Some? then [exits[i.value]] else []) + ByDirection(exits, d + 1)
  }

  // Strictly increasing directions, from d on.
  ghost predicate Ordered(exits: seq<Exit>, d: nat) {
    && (forall i :: 0 <= i < |exits| ==> d <= exits[i].dir)
    && (forall i, j :: 0 <= i < j < |exits| ==> exits[i].dir < exits[j].dir)
  }

  lemma {:induction false} ByDirectionOrdered(exits: seq<Exit>, d: nat)
    ensures Ordered(ByDirection(exits, d), d)
    decreases DIRECTIONS - d
  {
    if d < DIRECTIONS {
      ByDirectionOrdered(exits, d + 1);
    }
  }

  function Without(exits: seq<Exit>, i: nat): seq<Exit>
    requires i < |exits|
  {
    exits[..i] + exits[i + 1..]
  }

  lemma {:induction false} AtMostOnce(exits: seq<Exit>, e: Exit)
    requires Distinct(exits)
    ensures multiset(exits)[e] == if e in exits then 1 else 0
  {
    if exits != [] {
      AtMostOnce(exits[1..], e);
      assert exits == [exits[0]] + exits[1..];
    }
  }

  // A direction that is used is found.
  lemma FoundIf(exits: seq<Exit>, i: nat)
    requires i < |exits|
    ensures FirstIn(exits, exits[i].dir).Some?
  {
    assert Used(exits, exits[i].dir);
  }

  lemma {:induction false} ByDirectionHas(exits: seq<Exit>, d: nat, e: Exit)
    ensures e in ByDirection(exits, d) <==>
      d <= e.dir < DIRECTIONS && FirstIn(exits, e.dir).Some? && exits[FirstIn(exits, e.dir).value] == e
    decreases DIRECTIONS - d
  {
    hide FirstIn, Used;
    if d < DIRECTIONS {
      ByDirectionHas(exits, d + 1, e);
      var i, rest := FirstIn(exits, d), ByDirection(exits, d + 1);
      assert ByDirection(exits, d) == if i.Some? then [exits[i.value]] + rest else rest;
    }
  }

  lemma SameMembers(exits: seq<Exit>, e: Exit)
    requires forall i :: 0 <= i < |exits| ==> exits[i].dir < DIRECTIONS
    requires Distinct(exits)
    ensures e in ByDirection(exits, 0) <==> e in exits
  {
    hide ByDirection, FirstIn;
    ByDirectionHas(exits, 0, e);
    if e in exits {
      var i :| 0 <= i < |exits| && exits[i] == e;
      FoundIf(exits, i);
      var k := FirstIn(exits, e.dir).value;
      assert k < i || i < k || k == i;
    }
  }

  lemma SortKeepsDistinct(exits: seq<Exit>)
    requires forall i :: 0 <= i < |exits| ==> exits[i].dir < DIRECTIONS
    requires Distinct(exits)
    ensures multiset(ByDirection(exits, 0)) == multiset(exits)
  {
    hide ByDirection, FirstIn;
    var r := ByDirection(exits, 0);
    ByDirectionOrdered(exits, 0);
    assert Distinct(r);
    hide Distinct, Ordered;
    forall e ensures multiset(r)[e] == multiset(exits)[e] {
      AtMostOnce(exits, e);
      AtMostOnce(r, e);
      SameMembers(exits, e);
    }
  }

  lemma PermutedDistinct(r: seq<Exit>, exits: seq<Exit>)
    requires Ordered(r, 0) && multiset(r) == multiset(exits)
    ensures Distinct(exits)
  {
    forall i, j | 0 <= i < j < |exits| ensures exits[i].dir != exits[j].dir {
      TwoOfOne(exits, i, j);
      AtMostOnce(r, exits[i]);
      var a :| 0 <= a < |r| && r[a] == exits[i];
      var b :| 0 <= b < |r| && r[b] == exits[j];
    }
  }

  /** Sorting loses an exit exactly when two exits share a direction. */
  lemma SortLosesNone(exits: seq<Exit>)
    requires forall i :: 0 <= i < |exits| ==> exits[i].dir < DIRECTIONS
    ensures multiset(ByDirection(exits, 0)) == multiset(exits) <==> Distinct(exits)
  {
    ByDirectionOrdered(exits, 0);
    if Distinct(exits) {
      SortKeepsDistinct(exits);
    } else if multiset(ByDirection(exits, 0)) == multiset(exits) {
      PermutedDistinct(ByDirection(exits, 0), exits);
    }
  }

  lemma TwoOfOne(exits: seq<Exit>, i: nat, j: nat)
    requires i < j < |exits|
    ensures exits[i] == exits[j] ==> 2 <= multiset(exits)[exits[i]]
    ensures exits[i] in multiset(exits) && exits[j] in multiset(exits)
  {
    assert exits == exits[..j] + [exits[j]] + exits[j + 1..];
    assert exits[i] in exits[..j];
  }

  // Once its turn is over, a direction no longer matters.
  lemma {:induction false} ByDirectionWithout(exits: seq<Exit>, i: nat, d: nat)
    requires i < |exits| && exits[i].dir < d
    ensures ByDirection(Without(exits, i), d) == ByDirection(exits, d)
    decreases DIRECTIONS - d
  {
    if d < DIRECTIONS {
      FirstInWithout(exits, i, d);
      ByDirectionWithout(exits, i, d + 1);
    }
  }

  lemma {:induction false} FirstInWithout(exits: seq<Exit>, i: nat, d: nat)
    requires i < |exits| && exits[i].dir != d
    ensures var k, l := FirstIn(exits, d), FirstIn(Without(exits, i), d);
      k.Some? == l.Some? && (k.Some? ==> exits[k.value] == Without(exits, i)[l.value])
  {
    hide Used;
    var w := Without(exits, i);
    if i == 0 {
      assert w == exits[1..];
    } else {
      assert w[1..] == Without(exits[1..], i - 1);
      FirstInWithout(exits[1..], i - 1, d);
    }
  }
}
