/** The combination lock: how many wheels are right, and how many only out of place. */
module WheelLock {

  // The symbols that two sequences share, each as often as it occurs in both.
  ghost function Shared(a: seq<nat>, b: seq<nat>): multiset<nat> { multiset(a) * multiset(b) }

  // The places where they agree, up to n.
  ghost function Agreeing(a: seq<nat>, b: seq<nat>, n: nat): set<nat>
    requires n <= |a| && n <= |b|
  {
    set i: nat | i < n && a[i] == b[i]
  }

  lemma AgreeingMore(a: seq<nat>, b: seq<nat>, n: nat)
    requires n < |a| && n < |b|
    ensures |Agreeing(a, b, n + 1)| == |Agreeing(a, b, n)| + (if a[n] == b[n] then 1 else 0)
  {
    assert Agreeing(a, b, n + 1) == if a[n] == b[n] then Agreeing(a, b, n) + {n} else Agreeing(a, b, n);
  }

  /** As many places as there are agree exactly when the sequences are equal. */
  lemma {:induction false} AllAgree(a: seq<nat>, b: seq<nat>, n: nat)
    requires n <= |a| && n <= |b|
    ensures |Agreeing(a, b, n)| <= n && (|Agreeing(a, b, n)| == n <==> a[..n] == b[..n])
  {
    if n > 0 {
      AllAgree(a, b, n - 1);
      AgreeingMore(a, b, n - 1);
      assert a[..n] == a[..n - 1] + [a[n - 1]] && b[..n] == b[..n - 1] + [b[n - 1]];
    } else {
      assert Agreeing(a, b, 0) == {};
    }
  }

  // What a holds at the first n places, where b holds something else there.
  ghost function Elsewhere(a: seq<nat>, b: seq<nat>, n: nat): multiset<nat>
    requires n <= |a| && n <= |b|
  {
    if n == 0 then multiset{}
    else Elsewhere(a, b, n - 1) + if a[n - 1] == b[n - 1] then multiset{} else multiset{a[n - 1]}
  }

  lemma ElsewhereMore(a: seq<nat>, b: seq<nat>, n: nat)
    requires n < |a| && n < |b|
    ensures Elsewhere(a, b, n + 1) == Elsewhere(a, b, n) + if a[n] == b[n] then multiset{} else multiset{a[n]}
  {
  }

  ghost function Places(a: seq<nat>, b: seq<nat>, n: nat, x: nat): set<nat>
    requires n <= |a| && n <= |b|
  {
    set i: nat | i < n && a[i] != b[i] && a[i] == x
  }

  lemma PlacesMore(a: seq<nat>, b: seq<nat>, n: nat, x: nat)
    requires n < |a| && n < |b|
    ensures |Places(a, b, n + 1, x)| == |Places(a, b, n, x)| + if a[n] != b[n] && a[n] == x then 1 else 0
  {
    assert Places(a, b, n + 1, x) ==
      if a[n] != b[n] && a[n] == x then Places(a, b, n, x) + {n} else Places(a, b, n, x);
  }

  lemma {:induction false} ElsewherePlaces(a: seq<nat>, b: seq<nat>, n: nat, x: nat)
    requires n <= |a| && n <= |b|
    ensures Elsewhere(a, b, n)[x] == |Places(a, b, n, x)|
  {
    hide Places, Elsewhere;
    if n == 0 {
      NoPlaces(a, b, x);
      NothingYet(a, b);
    } else {
      ElsewherePlaces(a, b, n - 1, x);
      PlacesMore(a, b, n - 1, x);
      ElsewhereMore(a, b, n - 1);
    }
  }

  lemma NoPlaces(a: seq<nat>, b: seq<nat>, x: nat)
    ensures Places(a, b, 0, x) == {}
  {
  }

  /** Each symbol as often as there are such places. */
  lemma ElsewhereCounts(a: seq<nat>, b: seq<nat>, n: nat, x: nat)
    requires n <= |a| && n <= |b|
    ensures Elsewhere(a, b, n)[x] == |set i: nat | i < n && a[i] != b[i] && a[i] == x|
  {
    ElsewherePlaces(a, b, n, x);
  }

  lemma NothingYet(a: seq<nat>, b: seq<nat>)
    ensures Agreeing(a, b, 0) == {} && Elsewhere(a, b, 0) == Elsewhere(b, a, 0) == multiset{}
  {
  }

  lemma AgreeingAll(a: seq<nat>, b: seq<nat>)
    requires |a| == |b|
    ensures Agreeing(a, b, |a|) == set i: nat | i < |a| && a[i] == b[i]
  {
  }

  lemma CommonPart(m: multiset<nat>, a: multiset<nat>, b: multiset<nat>)
    ensures (m + a) * (m + b) == m + a * b
  {
  }

  lemma TakeOne(s: nat, a: multiset<nat>, b: multiset<nat>)
    ensures s in b ==> (multiset{s} + a) * b == multiset{s} + a * (b - multiset{s})
    ensures s !in b ==> (multiset{s} + a) * b == a * b
  {
    if s in b {
      assert b == multiset{s} + (b - multiset{s});
      CommonPart(multiset{s}, a, b - multiset{s});
    }
  }

  lemma Removed(s: seq<nat>, x: nat)
    requires x < |s|
    ensures multiset(s[..x] + s[x + 1..]) == multiset(s) - multiset{s[x]}
  {
    assert s == s[..x] + [s[x]] + s[x + 1..];
  }

  // What the first symbol adds, and what is left of the wheels for the others.
  lemma PairOff(symbols: seq<nat>, wheels: seq<nat>)
    requires symbols != []
    ensures symbols[0] !in wheels ==> |Shared(symbols, wheels)| == |Shared(symbols[1..], wheels)|
    ensures forall x: nat :: x < |wheels| && wheels[x] == symbols[0] ==>
      |Shared(symbols, wheels)| == 1 + |Shared(symbols[1..], wheels[..x] + wheels[x + 1..])|
  {
    assert symbols == [symbols[0]] + symbols[1..];
    TakeOne(symbols[0], multiset(symbols[1..]), multiset(wheels));
    forall x: nat | x < |wheels| && wheels[x] == symbols[0]
      ensures |Shared(symbols, wheels)| == 1 + |Shared(symbols[1..], wheels[..x] + wheels[x + 1..])|
    {
      Removed(wheels, x);
    }
  }

  class DirectionWheelLockDoor {
    const m_symbols: seq<nat>
    // The shapes of the wheels that have been put in.
    var m_wheels: seq<nat>

    constructor (symbols: seq<nat>)
      ensures m_symbols == symbols && m_wheels == []
    {
      m_symbols := symbols;
      m_wheels := [];
    }

    /** True exactly for the right wheels in the right order. With as many wheels as symbols,
        those in place are counted, and of those at the other places as many as the two have in
        common; together as many as all have in common. */
    method ValidateCombo(countOutOfPlace: bool) returns (ok: bool, exactMatchCount: nat, matchOutOfPlace: nat)
      ensures ok <==> m_wheels == m_symbols
      ensures |m_wheels| != |m_symbols| ==> exactMatchCount == 0 && matchOutOfPlace == 0
      ensures |m_wheels| == |m_symbols| ==>
        exactMatchCount == |set i: nat | i < |m_symbols| && m_symbols[i] == m_wheels[i]|
      ensures |m_wheels| == |m_symbols| && countOutOfPlace ==>
        var n := |m_symbols|;
        matchOutOfPlace == |Elsewhere(m_symbols, m_wheels, n) * Elsewhere(m_wheels, m_symbols, n)|
      ensures |m_wheels| == |m_symbols| && countOutOfPlace ==>
        exactMatchCount + matchOutOfPlace == |Shared(m_symbols, m_wheels)|
      ensures !countOutOfPlace ==> matchOutOfPlace == 0
    {
      hide Agreeing, Elsewhere;
      exactMatchCount, matchOutOfPlace := 0, 0;
      if |m_wheels| != |m_symbols| {
        return false, 0, 0;
      }
      var unMatchedSymbols, unMatchedWheels := [], [];
      ghost var matched: multiset<nat> := multiset{};
      var i := 0;
      NothingYet(m_symbols, m_wheels);
      while i < |m_symbols|
        invariant i <= |m_symbols| && exactMatchCount == |matched| == |Agreeing(m_symbols, m_wheels, i)|
        invariant countOutOfPlace ==> multiset(m_symbols[..i]) == matched + multiset(unMatchedSymbols)
        invariant countOutOfPlace ==> multiset(m_wheels[..i]) == matched + multiset(unMatchedWheels)
        invariant countOutOfPlace ==> multiset(unMatchedSymbols) == Elsewhere(m_symbols, m_wheels, i)
        invariant countOutOfPlace ==> multiset(unMatchedWheels) == Elsewhere(m_wheels, m_symbols, i)
      {
        AgreeingMore(m_symbols, m_wheels, i);
        ElsewhereMore(m_symbols, m_wheels, i);
        ElsewhereMore(m_wheels, m_symbols, i);
        assert m_symbols[..i + 1] == m_symbols[..i] + [m_symbols[i]];
        assert m_wheels[..i + 1] == m_wheels[..i] + [m_wheels[i]];
        if m_symbols[i] == m_wheels[i] {
          exactMatchCount := exactMatchCount + 1;
          matched := matched + multiset{m_symbols[i]};
        } else if countOutOfPlace {
          unMatchedSymbols := unMatchedSymbols + [m_symbols[i]];
          unMatchedWheels := unMatchedWheels + [m_wheels[i]];
        }
        i := i + 1;
      }
      AllAgree(m_symbols, m_wheels, i);
      AgreeingAll(m_symbols, m_wheels);
      assert m_symbols[..i] == m_symbols && m_wheels[..i] == m_wheels;
      if countOutOfPlace {
        matchOutOfPlace := CountOutOfPlace(unMatchedSymbols, unMatchedWheels);
        CommonPart(matched, multiset(unMatchedSymbols), multiset(unMatchedWheels));
      }
      ok := exactMatchCount == |m_symbols|;
    }

    // Each symbol is paired off with the first wheel left that has its shape.
    static method CountOutOfPlace(symbols: seq<nat>, wheels: seq<nat>) returns (n: nat)
      ensures n == |Shared(symbols, wheels)|
    {
      var left, i := wheels, 0;
      n := 0;
      assert symbols[0..] == symbols;
      while i < |symbols|
        invariant i <= |symbols| && n + |Shared(symbols[i..], left)| == |Shared(symbols, wheels)|
      {
        PairOff(symbols[i..], left);
        assert symbols[i..][1..] == symbols[i + 1..];
        var x := IndexOf(symbols[i], left);
        if x < |left| {
          n := n + 1;
          left := left[..x] + left[x + 1..];
        }
        i := i + 1;
      }
    }

    // The first wheel of a shape, or the number of wheels.
    static method IndexOf(shape: nat, wheels: seq<nat>) returns (x: nat)
      ensures x <= |wheels| && (x < |wheels| ==> wheels[x] == shape) && (x == |wheels| ==> shape !in wheels)
    {
      x := 0;
      while x < |wheels| && shape != wheels[x]
        invariant x <= |wheels| && shape !in wheels[..x]
      {
        x := x + 1;
      }
      assert wheels[..|wheels|] == wheels;
    }
  }
}
