/** The backtracking matcher decides the language that a compiled pattern denotes. */
module Regex {
  import opened Wrappers

  // A compiled pattern ends with Unused; One is any of the tests of a single character.
  datatype Tok = Unused | Begin | End | Question | Star | Plus | One(test: char -> bool)

  // ---------- What a pattern means ----------

  datatype Rep = Once | Optional | Many | AtLeastOne

  datatype Item = Item(test: char -> bool, rep: Rep)

  // The strings an item stands for.
  ghost predicate InItem(it: Item, s: seq<char>) {
    (forall i :: 0 <= i < |s| ==> it.test(s[i])) && HowMany(it.rep, |s|)
  }

  predicate HowMany(rep: Rep, n: nat) {
    match rep
    case Once => n == 1
    case Optional => n <= 1
    case Many => true
    case AtLeastOne => 1 <= n
  }

  // Concatenations of strings of the items, in order.
  ghost predicate InLanguage(items: seq<Item>, s: seq<char>)
    decreases |items|
  {
    if items == [] then s == []
    else exists k :: 0 <= k <= |s| && InItem(items[0], s[..k]) && InLanguage(items[1..], s[k..])
  }

  /** Some stretch of the text from `at` on is in the language; it reaches the end of the
      text if the pattern is tied to it. */
  ghost predicate MatchesAt(items: seq<Item>, toEnd: bool, text: seq<char>, at: nat) {
    exists j :: at <= j <= |text| && InLanguage(items, text[at..j]) && (toEnd ==> j == |text|)
  }

  // ---------- Compiled patterns ----------

  predicate Quantifier(t: Tok) { t.Question? || t.Star? || t.Plus? }

  // Single-character tests, each with at most one quantifier, and a dollar sign only at the end.
  predicate WellFormed(p: seq<Tok>)
    decreases |p|
  {
    if |p| < 2 then |p| == 1 && p[0].Unused?
    else if p[0].One? then if Quantifier(p[1]) then WellFormed(p[2..]) else WellFormed(p[1..])
    else p[0].Unused? || (p[0].End? && p[1].Unused?)
  }

  function Rest(p: seq<Tok>): (r: seq<Tok>)
    requires WellFormed(p) && p[0].One?
    ensures WellFormed(r) && |r| < |p|
  {
    if Quantifier(p[1]) then p[2..] else p[1..]
  }

  function RepOf(t: Tok): Rep {
    match t
    case Question => Optional
    case Star => Many
    case Plus => AtLeastOne
    case _ => Once
  }

  function First(p: seq<Tok>): Item
    requires WellFormed(p) && p[0].One?
  {
    Item(p[0].test, RepOf(p[1]))
  }

  function Items(p: seq<Tok>): seq<Item>
    requires WellFormed(p)
    decreases |p|
  {
    if p[0].One? then [First(p)] + Items(Rest(p)) else []
  }

  function ToEnd(p: seq<Tok>): bool
    requires WellFormed(p)
    decreases |p|
  {
    if p[0].One? then ToEnd(Rest(p)) else p[0].End?
  }

  // The pattern that the compiler makes of a list of items.
  function Tokens(items: seq<Item>, toEnd: bool): seq<Tok> {
    if items == [] then if toEnd then [End, Unused] else [Unused]
    else
      [One(items[0].test)]
      + (match items[0].rep case Once => [] case Optional => [Question] case Many => [Star] case AtLeastOne => [Plus])
      + Tokens(items[1..], toEnd)
  }

  /** Every list of items has a well-formed pattern, and the pattern determines the list. */
  lemma {:induction false} TokensMean(items: seq<Item>, toEnd: bool)
    ensures WellFormed(Tokens(items, toEnd))
    ensures Items(Tokens(items, toEnd)) == items && ToEnd(Tokens(items, toEnd)) == toEnd
    ensures !Quantifier(Tokens(items, toEnd)[0])
  {
    if items != [] {
      TokensMean(items[1..], toEnd);
      var p, t := Tokens(items, toEnd), Tokens(items[1..], toEnd);
      assert if items[0].rep.Once? then p[1..] == t else Quantifier(p[1]) && p[2..] == t;
    }
  }

  // ---------- Unfolding one item ----------

  ghost predicate Accepts(p: seq<Tok>, text: seq<char>, at: nat)
    requires WellFormed(p)
  {
    MatchesAt(Items(p), ToEnd(p), text, at)
  }

  lemma AcceptsLast(p: seq<Tok>, text: seq<char>, at: nat)
    requires WellFormed(p) && !p[0].One? && at <= |text|
    ensures Accepts(p, text, at) <==> (p[0].End? ==> at == |text|)
  {
    if p[0].End? ==> at == |text| {
      assert text[at..at] == [] && InLanguage(Items(p), text[at..at]);
    }
  }

  // A match is a match of the first item followed by a match of the rest.
  lemma ItemThenRest(p: seq<Tok>, text: seq<char>, at: nat, k: nat)
    requires WellFormed(p) && p[0].One? && at <= k <= |text|
    requires InItem(First(p), text[at..k]) && Accepts(Rest(p), text, k)
    ensures Accepts(p, text, at)
  {
    hide WellFormed, InItem;
    var items := Items(p);
    assert items[0] == First(p) && items[1..] == Items(Rest(p));
    var j :| k <= j <= |text| && InLanguage(Items(Rest(p)), text[k..j]) && (ToEnd(Rest(p)) ==> j == |text|);
    var s := text[at..j];
    assert s[..k - at] == text[at..k] && s[k - at..] == text[k..j];
    assert InLanguage(items, s);
  }

  lemma SplitItem(p: seq<Tok>, text: seq<char>, at: nat) returns (k: nat)
    requires WellFormed(p) && p[0].One? && at <= |text| && Accepts(p, text, at)
    ensures at <= k <= |text| && InItem(First(p), text[at..k]) && Accepts(Rest(p), text, k)
  {
    hide WellFormed, InItem;
    var items := Items(p);
    assert items[0] == First(p) && items[1..] == Items(Rest(p));
    var j :| at <= j <= |text| && InLanguage(items, text[at..j]) && (ToEnd(p) ==> j == |text|);
    var s := text[at..j];
    var i :| 0 <= i <= |s| && InItem(items[0], s[..i]) && InLanguage(items[1..], s[i..]);
    k := at + i;
    assert s[..i] == text[at..k] && s[i..] == text[k..j];
  }

  // The characters from at up to k all pass.
  ghost predicate Run(test: char -> bool, text: seq<char>, at: nat, k: int) {
    at <= k <= |text| && forall i :: at <= i < k ==> test(text[i])
  }

  lemma RunIs(it: Item, text: seq<char>, at: nat, k: nat)
    requires at <= k <= |text|
    ensures InItem(it, text[at..k]) <==> Run(it.test, text, at, k) && HowMany(it.rep, k - at)
  {
    if InItem(it, text[at..k]) {
      forall i | at <= i < k ensures it.test(text[i]) {
        assert text[at..k][i - at] == text[i];
      }
    }
  }

  // The first item takes the characters up to k, and the rest matches from there.
  ghost predicate Takes(p: seq<Tok>, text: seq<char>, at: nat, k: nat)
    requires WellFormed(p) && p[0].One?
  {
    Run(First(p).test, text, at, k) && HowMany(First(p).rep, k - at) && Accepts(Rest(p), text, k)
  }

  lemma AcceptsRun(p: seq<Tok>, text: seq<char>, at: nat)
    requires WellFormed(p) && p[0].One? && at <= |text|
    ensures Accepts(p, text, at) <==> exists k :: Takes(p, text, at, k)
  {
    hide WellFormed, MatchesAt, InItem, Items;
    if Accepts(p, text, at) {
      var k := SplitItem(p, text, at);
      RunIs(First(p), text, at, k);
      assert Takes(p, text, at, k);
    }
    if k :| Takes(p, text, at, k) {
      RunIs(First(p), text, at, k);
      ItemThenRest(p, text, at, k);
    }
  }

  // ---------- The matcher ----------

  // The greedy search: some stretch of passing characters, at least `least` of them, and a match after it.
  ghost predicate Repeats(test: char -> bool, rest: seq<Tok>, text: seq<char>, at: nat, least: nat)
    requires WellFormed(rest)
  {
    exists k: nat :: at + least <= k && Run(test, text, at, k) && Accepts(rest, text, k)
  }

  method MatchRun(test: char -> bool, text: seq<char>, at: nat) returns (t: nat)
    requires at <= |text|
    ensures Run(test, text, at, t) && forall k :: Run(test, text, at, k) ==> k <= t
  {
    t := at;
    while t < |text| && test(text[t])
      invariant Run(test, text, at, t)
    {
      t := t + 1;
    }
  }

  // From the longest stretch back to the empty one.
  method MatchStar(test: char -> bool, rest: seq<Tok>, text: seq<char>, at: nat) returns (r: bool)
    requires WellFormed(rest) && at <= |text|
    ensures r <==> Repeats(test, rest, text, at, 0)
    decreases |rest|, 2
  {
    hide Accepts;
    var t: int := MatchRun(test, text, at);
    while t >= at
      invariant t < at || Run(test, text, at, t)
      invariant forall k: nat :: t < k && Run(test, text, at, k) ==> !Accepts(rest, text, k)
    {
      var found := MatchPattern(rest, text, t);
      if found {
        return true;
      }
      t := t - 1;
    }
    r := false;
  }

  method MatchPlus(test: char -> bool, rest: seq<Tok>, text: seq<char>, at: nat) returns (r: bool)
    requires WellFormed(rest) && at <= |text|
    ensures r <==> Repeats(test, rest, text, at, 1)
    decreases |rest|, 2
  {
    hide Accepts;
    var t: int := MatchRun(test, text, at);
    while t > at
      invariant Run(test, text, at, t)
      invariant forall k: nat :: t < k && Run(test, text, at, k) ==> !Accepts(rest, text, k)
    {
      var found := MatchPattern(rest, text, t);
      if found {
        return true;
      }
      t := t - 1;
    }
    r := false;
  }

  // Without the character first, then with it.
  method MatchQuestion(p: Tok, rest: seq<Tok>, text: seq<char>, at: nat) returns (r: bool)
    requires at <= |text| && (!p.Unused? ==> p.One? && WellFormed(rest))
    ensures p.Unused? ==> r
    ensures p.One? ==>
      (r <==> Accepts(rest, text, at) || (at < |text| && p.test(text[at]) && Accepts(rest, text, at + 1)))
    decreases |rest|, 2
  {
    hide Accepts;
    if p.Unused? {
      return true;
    }
    r := MatchPattern(rest, text, at);
    if r {
      return;
    }
    if at < |text| && p.test(text[at]) {
      r := MatchPattern(rest, text, at + 1);
    }
  }

  /** The matcher ends, and it succeeds exactly when the pattern has a match at this place. */
  method MatchPattern(pattern: seq<Tok>, text: seq<char>, at: nat) returns (r: bool)
    requires WellFormed(pattern) && at <= |text|
    ensures r <==> Accepts(pattern, text, at)
    decreases |pattern|, 1
  {
    hide Accepts;
    var p, t: nat := pattern, at;
    while true
      invariant WellFormed(p) && |p| <= |pattern| && t <= |text|
      invariant Accepts(pattern, text, at) <==> Accepts(p, text, t)
      decreases |p|
    {
      Step(p, text, t);
      if p[0].Unused? || p[1].Question? {
        r := MatchQuestion(p[0], if |p| < 2 then [] else p[2..], text, t);
        return;
      } else if p[1].Star? {
        r := MatchStar(p[0].test, p[2..], text, t);
        return;
      } else if p[1].Plus? {
        r := MatchPlus(p[0].test, p[2..], text, t);
        return;
      } else if p[0].End? && p[1].Unused? {
        return t == |text|;
      }
      if t == |text| || !p[0].test(text[t]) {
        return false;
      }
      p, t := p[1..], t + 1;
    }
  }

  // What the pattern's first tokens ask for.
  lemma Step(p: seq<Tok>, text: seq<char>, t: nat)
    requires WellFormed(p) && t <= |text|
    ensures p[0].Unused? ==> Accepts(p, text, t)
    ensures p[0].End? ==> (Accepts(p, text, t) <==> t == |text|)
    ensures p[0].One? && p[1].Star? ==> (Accepts(p, text, t) <==> Repeats(p[0].test, p[2..], text, t, 0))
    ensures p[0].One? && p[1].Plus? ==> (Accepts(p, text, t) <==> Repeats(p[0].test, p[2..], text, t, 1))
    ensures p[0].One? && p[1].Question? ==> (Accepts(p, text, t) <==>
      Accepts(p[2..], text, t) || (t < |text| && p[0].test(text[t]) && Accepts(p[2..], text, t + 1)))
    ensures p[0].One? && !Quantifier(p[1]) ==> (Accepts(p, text, t) <==>
      t < |text| && p[0].test(text[t]) && Accepts(p[1..], text, t + 1))
  {
    if p[0].One? {
      AcceptsRun(p, text, t);
      StepOne(p, text, t);
    } else {
      AcceptsLast(p, text, t);
    }
  }

  lemma StepOne(p: seq<Tok>, text: seq<char>, t: nat)
    requires WellFormed(p) && t <= |text| && p[0].One?
    ensures p[1].Star? ==> ((exists k :: Takes(p, text, t, k)) <==> Repeats(p[0].test, p[2..], text, t, 0))
    ensures p[1].Plus? ==> ((exists k :: Takes(p, text, t, k)) <==> Repeats(p[0].test, p[2..], text, t, 1))
    ensures p[1].Question? ==> ((exists k :: Takes(p, text, t, k)) <==>
      Accepts(p[2..], text, t) || (t < |text| && p[0].test(text[t]) && Accepts(p[2..], text, t + 1)))
    ensures !Quantifier(p[1]) ==> ((exists k :: Takes(p, text, t, k)) <==>
      t < |text| && p[0].test(text[t]) && Accepts(p[1..], text, t + 1))
  {
    hide Accepts;
    forall k: nat ensures Takes(p, text, t, k) <==>
      (Run(p[0].test, text, t, k) && HowMany(RepOf(p[1]), k - t) && Accepts(Rest(p), text, k)) {
    }
    if p[1].Star? || p[1].Plus? {
      if k: nat :| Run(p[0].test, text, t, k) && HowMany(RepOf(p[1]), k - t) && Accepts(Rest(p), text, k) {
        assert Takes(p, text, t, k);
      }
    } else {
      var none, one := Takes(p, text, t, t), Takes(p, text, t, t + 1);
    }
  }

  /** The index of the first match below the end of the text, or -1; an anchored pattern is
      tried at the start only. */
  method Matchp(pattern: Option<seq<Tok>>, text: seq<char>) returns (idx: int)
    requires pattern.Some? ==> |pattern.value| > 0
    requires pattern.Some? ==> WellFormed(if pattern.value[0].Begin? then pattern.value[1..] else pattern.value)
    ensures pattern.None? ==> idx == -1
    ensures pattern.Some? && pattern.value[0].Begin? ==> idx == if Accepts(pattern.value[1..], text, 0) then 0 else -1
    ensures pattern.Some? && !pattern.value[0].Begin? ==>
      || (idx == -1 && forall i: nat :: i < |text| ==> !Accepts(pattern.value, text, i))
      || (0 <= idx < |text| && Accepts(pattern.value, text, idx)
        && forall i: nat :: i < idx ==> !Accepts(pattern.value, text, i))
  {
    hide Accepts;
    if pattern.None? {
      return -1;
    }
    var p := pattern.value;
    if p[0].Begin? {
      var ok := MatchPattern(p[1..], text, 0);
      return if ok then 0 else -1;
    }
    idx := 0;
    while true
      invariant 0 <= idx <= |text| && forall i: nat :: i < idx ==> !Accepts(p, text, i)
      decreases |text| - idx
    {
      var ok := MatchPattern(p, text, idx);
      if ok {
        return if idx == |text| then -1 else idx;
      }
      if idx == |text| {
        return -1;
      }
      idx := idx + 1;
    }
  }
}
