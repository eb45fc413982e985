/** Route enumeration loses nothing, repeats nothing and adds nothing. */
module Enumeration {
  import opened Routes

  // ---- The same routes, picked from one flat list ------------------------------------------------------

  /** The quotes still usable after some quotes, in the order the code tries them. */
  function Flat(c: Candidates, quotes: seq<PathQuote>, i: nat): seq<PathQuote>
    requires i <= |c|
  {
    if i == 0 then []
    else (if Allowed(quotes, c[i - 1].percent) then c[i - 1].quotes else []) + Flat(c, quotes, i - 1)
  }

  /** Every way of extending a route by some of the listed quotes, in list order, up to 100 percent. */
  function PickAll(list: seq<PathQuote>, maxSplits: int, current: Route): seq<Route>
    decreases |list|, 1
  {
    if list == [] then []
    else Pick(list[0], list[1..], maxSplits, current) + PickAll(list[1..], maxSplits, current)
  }

  function Pick(q: PathQuote, rest: seq<PathQuote>, maxSplits: int, current: Route): seq<Route>
    decreases |rest| + 1, 0
  {
    var next := Extend(current, q);
    if next.splitPercent > 100 || ReusesPool(q, current.quotes) then []
    else if next.splitPercent == 100 then [next]
    else if |current.quotes| + 1 != maxSplits then PickAll(rest, maxSplits, next)
    else []
  }

  /** A route picked from a list takes its first quote or does not. */
  lemma PickedFirstOrLater(list: seq<PathQuote>, maxSplits: int, current: Route, r: Route)
    requires r in PickAll(list, maxSplits, current)
    ensures list != [] && (r in Pick(list[0], list[1..], maxSplits, current) || r in PickAll(list[1..], maxSplits, current))
  {
  }

  /** Taking a quote completes a route or goes on from it. */
  lemma PickedWith(q: PathQuote, rest: seq<PathQuote>, maxSplits: int, current: Route, r: Route)
    requires r in Pick(q, rest, maxSplits, current)
    ensures
      var next := Extend(current, q);
      if next.splitPercent == 100 then r == next else next.splitPercent < 100 && r in PickAll(rest, maxSplits, next)
  {
  }

  lemma {:induction false} PickNothing(a: seq<PathQuote>, b: seq<PathQuote>, maxSplits: int, current: Route)
    requires forall j :: 0 <= j < |a| ==> current.splitPercent + a[j].splitPercent > 100
    ensures PickAll(a + b, maxSplits, current) == PickAll(b, maxSplits, current)
    decreases |a|
  {
    if a == [] {
      assert a + b == b;
    } else {
      assert (a + b)[0] == a[0] && (a + b)[1..] == a[1..] + b;
      PickNothing(a[1..], b, maxSplits, current);
    }
  }

  lemma DropThroughKeepsForm(c: Candidates, i: nat, j: nat)
    requires WellFormed(c) && i < |c| && j < |c[i].quotes|
    ensures WellFormed(DropThrough(c, i, j))
  {
  }

  lemma {:induction false} FlatBelow(c: Candidates, c': Candidates, quotes: seq<PathQuote>, quotes': seq<PathQuote>, i: nat)
    requires i <= |c| == |c'|
    requires forall k :: 0 <= k < i ==> c'[k] == c[k] && Allowed(quotes, c[k].percent) && Allowed(quotes', c[k].percent)
    ensures Flat(c', quotes', i) == Flat(c, quotes, i)
  {
    if i > 0 {
      FlatBelow(c, c', quotes, quotes', i - 1);
    }
  }

  lemma {:induction false} FlatAbove(c: Candidates, quotes: seq<PathQuote>, i: nat, n: nat)
    requires i <= n <= |c| && forall k :: i <= k < n ==> !Allowed(quotes, c[k].percent)
    ensures Flat(c, quotes, n) == Flat(c, quotes, i)
    decreases n - i
  {
    if i < n {
      FlatAbove(c, quotes, i, n - 1);
      assert [] + Flat(c, quotes, n - 1) == Flat(c, quotes, n - 1);
    }
  }

  /** After quote j of key i, what is left is the rest of that key and all smaller keys. */
  lemma FlatAfterPick(c: Candidates, quotes: seq<PathQuote>, i: nat, j: nat)
    requires WellFormed(c) && i < |c| && j < |c[i].quotes| && Allowed(quotes, c[i].percent)
    ensures Flat(DropThrough(c, i, j), quotes + [c[i].quotes[j]], |c|) == c[i].quotes[j + 1..] + Flat(c, quotes, i)
  {
    var c', quotes' := DropThrough(c, i, j), quotes + [c[i].quotes[j]];
    FlatAbove(c', quotes', i + 1, |c|);
    FlatBelow(c, c', quotes, quotes', i);
  }

  lemma SkippedKeyIsFlat(c: Candidates, maxSplits: int, current: Route, i: nat)
    requires WellFormed(c) && i < |c|
    requires !Allowed(current.quotes, c[i].percent) || current.splitPercent + c[i].percent > 100
    requires OverKeys(c, maxSplits, current, i) == PickAll(Flat(c, current.quotes, i), maxSplits, current)
    ensures OverKeys(c, maxSplits, current, i + 1) == PickAll(Flat(c, current.quotes, i + 1), maxSplits, current)
  {
    KeyStep(c, maxSplits, current, i);
    if Allowed(current.quotes, c[i].percent) {
      PickNothing(c[i].quotes, Flat(c, current.quotes, i), maxSplits, current);
    }
  }

  lemma TriedKeyIsFlat(c: Candidates, maxSplits: int, current: Route, i: nat)
    requires i < |c| && Allowed(current.quotes, c[i].percent) && current.splitPercent + c[i].percent <= 100
    requires OverQuotes(c, maxSplits, current, i, 0) + OverKeys(c, maxSplits, current, i)
          == PickAll(c[i].quotes[0..] + Flat(c, current.quotes, i), maxSplits, current)
    ensures OverKeys(c, maxSplits, current, i + 1) == PickAll(Flat(c, current.quotes, i + 1), maxSplits, current)
  {
    KeyStep(c, maxSplits, current, i);
    assert c[i].quotes[0..] == c[i].quotes;
  }

  /** One more key, tried or skipped. */
  lemma KeyStep(c: Candidates, maxSplits: int, current: Route, i: nat)
    requires i < |c|
    ensures Flat(c, current.quotes, i + 1)
         == if Allowed(current.quotes, c[i].percent) then c[i].quotes + Flat(c, current.quotes, i)
            else Flat(c, current.quotes, i)
    ensures OverKeys(c, maxSplits, current, i + 1)
         == if current.splitPercent + c[i].percent > 100 || !Allowed(current.quotes, c[i].percent) then
              OverKeys(c, maxSplits, current, i)
            else OverQuotes(c, maxSplits, current, i, 0) + OverKeys(c, maxSplits, current, i)
  {
    assert [] + Flat(c, current.quotes, i) == Flat(c, current.quotes, i);
    assert [] + OverKeys(c, maxSplits, current, i) == OverKeys(c, maxSplits, current, i);
  }

  /** The recursion over keys and quotes is the recursion over the flat list. */
  lemma {:induction false} KeysAreFlat(c: Candidates, maxSplits: int, current: Route, i: nat)
    requires WellFormed(c) && i <= |c|
    ensures OverKeys(c, maxSplits, current, i) == PickAll(Flat(c, current.quotes, i), maxSplits, current)
    decreases QuoteCount(c), i, 2
  {
    if i == 0 {
    } else {
      KeysAreFlat(c, maxSplits, current, i - 1);
      if Allowed(current.quotes, c[i - 1].percent) && current.splitPercent + c[i - 1].percent <= 100 {
        QuotesAreFlat(c, maxSplits, current, i - 1, 0);
        TriedKeyIsFlat(c, maxSplits, current, i - 1);
      } else {
        SkippedKeyIsFlat(c, maxSplits, current, i - 1);
      }
    }
  }

  lemma PickAllStep(q: PathQuote, rest: seq<PathQuote>, maxSplits: int, current: Route)
    ensures PickAll([q] + rest, maxSplits, current) == Pick(q, rest, maxSplits, current) + PickAll(rest, maxSplits, current)
  {
    assert ([q] + rest)[1..] == rest;
  }

  lemma QuotesStep(c: Candidates, maxSplits: int, current: Route, i: nat, j: nat)
    requires i < |c| && j < |c[i].quotes|
    ensures OverQuotes(c, maxSplits, current, i, j) + OverKeys(c, maxSplits, current, i)
         == Consider(c, maxSplits, current, i, j)
          + (OverQuotes(c, maxSplits, current, i, j + 1) + OverKeys(c, maxSplits, current, i))
  {
    var a, b, k := Consider(c, maxSplits, current, i, j), OverQuotes(c, maxSplits, current, i, j + 1),
      OverKeys(c, maxSplits, current, i);
    assert (a + b) + k == a + (b + k);
  }

  lemma {:induction false} QuotesAreFlat(c: Candidates, maxSplits: int, current: Route, i: nat, j: nat)
    requires WellFormed(c) && i < |c| && j <= |c[i].quotes|
    requires Allowed(current.quotes, c[i].percent) && current.splitPercent + c[i].percent <= 100
    requires OverKeys(c, maxSplits, current, i) == PickAll(Flat(c, current.quotes, i), maxSplits, current)
    ensures OverQuotes(c, maxSplits, current, i, j) + OverKeys(c, maxSplits, current, i)
         == PickAll(c[i].quotes[j..] + Flat(c, current.quotes, i), maxSplits, current)
    decreases QuoteCount(c), i, 1, |c[i].quotes| - j
  {
    var rest := Flat(c, current.quotes, i);
    if j == |c[i].quotes| {
      assert c[i].quotes[j..] + rest == rest;
      assert [] + OverKeys(c, maxSplits, current, i) == OverKeys(c, maxSplits, current, i);
    } else {
      QuotesAreFlat(c, maxSplits, current, i, j + 1);
      ConsiderIsPick(c, maxSplits, current, i, j);
      var later := c[i].quotes[j + 1..] + rest;
      PickAllStep(c[i].quotes[j], later, maxSplits, current);
      assert c[i].quotes[j..] + rest == [c[i].quotes[j]] + later;
      QuotesStep(c, maxSplits, current, i, j);
    }
  }

  lemma {:induction false} ConsiderIsPick(c: Candidates, maxSplits: int, current: Route, i: nat, j: nat)
    requires WellFormed(c) && i < |c| && j < |c[i].quotes|
    requires Allowed(current.quotes, c[i].percent) && current.splitPercent + c[i].percent <= 100
    ensures Consider(c, maxSplits, current, i, j)
         == Pick(c[i].quotes[j], c[i].quotes[j + 1..] + Flat(c, current.quotes, i), maxSplits, current)
    decreases QuoteCount(c), i, 0
  {
    var q := c[i].quotes[j];
    var next := Extend(current, q);
    if ReusesPool(q, current.quotes) {
    } else if next.splitPercent == 100 {
    } else if |current.quotes| + 1 != maxSplits {
      DropThroughShrinks(c, i, j);
      DropThroughKeepsForm(c, i, j);
      KeysAreFlat(DropThrough(c, i, j), maxSplits, next, |c|);
      FlatAfterPick(c, current.quotes, i, j);
      assert Consider(c, maxSplits, current, i, j) == OverKeys(DropThrough(c, i, j), maxSplits, next, |c|);
    }
  }

  /** All quotes of the map, in the order the code first tries them. */
  function AllQuotes(c: Candidates): seq<PathQuote> {
    Flat(c, [], |c|)
  }

  lemma BuildRoutesIsPickAll(c: Candidates, maxSplits: int)
    requires WellFormed(c)
    ensures BuildRoutes(c, maxSplits, EMPTY_ROUTE) == PickAll(AllQuotes(c), maxSplits, EMPTY_ROUTE)
  {
    KeysAreFlat(c, maxSplits, EMPTY_ROUTE, |c|);
  }

  // ---- Valid selections ---------------------------------------------------------------------------------------

  function SetOf(quotes: seq<PathQuote>): set<PathQuote> {
    set q | q in quotes
  }

  ghost predicate Distinct(list: seq<PathQuote>) {
    forall i, j :: 0 <= i < j < |list| ==> list[i] != list[j]
  }

  /** Sum of the percentages of the listed quotes that belong to a set. */
  ghost function PercentOf(list: seq<PathQuote>, chosen: set<PathQuote>): int {
    if list == [] then 0
    else (if list[0] in chosen then list[0].splitPercent else 0) + PercentOf(list[1..], chosen)
  }

  ghost predicate PoolsDisjoint(chosen: set<PathQuote>) {
    forall q, r :: q in chosen && r in chosen && q != r ==> !SharesPool(q, r)
  }

  /** A set of quotes that completes a partial route: 100 percent, pools used once, not too many splits. */
  ghost predicate Completes(list: seq<PathQuote>, maxSplits: int, current: Route, chosen: set<PathQuote>) {
    && chosen <= SetOf(list)
    && current.splitPercent + PercentOf(list, chosen) == 100
    && (maxSplits >= 1 ==> |current.quotes| + |chosen| <= maxSplits)
    && PoolsDisjoint(chosen)
    && forall q :: q in chosen ==> !ReusesPool(q, current.quotes)
  }

  /** How many of the routes consist of exactly these quotes. */
  ghost function CountOf(routes: seq<Route>, quotes: set<PathQuote>): nat {
    if routes == [] then 0
    else (if SetOf(routes[0].quotes) == quotes then 1 else 0) + CountOf(routes[1..], quotes)
  }

  lemma {:induction false} CountConcat(a: seq<Route>, b: seq<Route>, quotes: set<PathQuote>)
    ensures CountOf(a + b, quotes) == CountOf(a, quotes) + CountOf(b, quotes)
    decreases |a|
  {
    if a == [] {
      assert a + b == b;
    } else {
      assert (a + b)[0] == a[0] && (a + b)[1..] == a[1..] + b;
      CountConcat(a[1..], b, quotes);
    }
  }

  lemma {:induction false} CountNone(routes: seq<Route>, quotes: set<PathQuote>)
    requires forall r :: r in routes ==> SetOf(r.quotes) != quotes
    ensures CountOf(routes, quotes) == 0
  {
    if routes == [] {
    } else {
      assert routes[0] in routes;
      CountNone(routes[1..], quotes);
    }
  }

  /** Emitted routes extend the current one, and by listed quotes only. */
  lemma {:induction false} RoutesStayInList(list: seq<PathQuote>, maxSplits: int, current: Route, r: Route)
    requires r in PickAll(list, maxSplits, current)
    ensures SetOf(current.quotes) <= SetOf(r.quotes) <= SetOf(current.quotes) + SetOf(list)
    decreases |list|, 1
  {
    PickedFirstOrLater(list, maxSplits, current, r);
    if r in Pick(list[0], list[1..], maxSplits, current) {
      PickContains(list[0], list[1..], maxSplits, current, r);
    } else {
      RoutesStayInList(list[1..], maxSplits, current, r);
    }
  }

  lemma {:induction false} PickContains(q: PathQuote, rest: seq<PathQuote>, maxSplits: int, current: Route, r: Route)
    requires r in Pick(q, rest, maxSplits, current)
    ensures SetOf(current.quotes) <= SetOf(r.quotes) <= SetOf(current.quotes) + {q} + SetOf(rest)
    ensures q in SetOf(r.quotes)
    decreases |rest| + 1, 0
  {
    var next := Extend(current, q);
    assert q in next.quotes;
    assert SetOf(next.quotes) == SetOf(current.quotes) + {q};
    PickedWith(q, rest, maxSplits, current, r);
    if next.splitPercent < 100 {
      RoutesStayInList(rest, maxSplits, next, r);
    }
  }

  lemma {:induction false} PercentIgnoresOthers(list: seq<PathQuote>, a: set<PathQuote>, b: set<PathQuote>)
    requires forall q :: q in list ==> (q in a <==> q in b)
    ensures PercentOf(list, a) == PercentOf(list, b)
  {
    if list != [] {
      PercentIgnoresOthers(list[1..], a, b);
    }
  }

  lemma {:induction false} PercentAtLeast(list: seq<PathQuote>, chosen: set<PathQuote>)
    requires forall q :: q in list ==> q.splitPercent >= 1
    requires chosen <= SetOf(list)
    ensures PercentOf(list, chosen) >= 0
    ensures chosen != {} ==> PercentOf(list, chosen) >= 1
    ensures chosen == {} ==> PercentOf(list, chosen) == 0
    decreases |list|
  {
    if list != [] {
      PercentIgnoresOthers(list[1..], chosen, chosen * SetOf(list[1..]));
      PercentAtLeast(list[1..], chosen * SetOf(list[1..]));
      if chosen != {} && list[0] !in chosen {
        var q :| q in chosen;
        assert q in list[1..];
      }
    }
  }

  // ---- Completing with the first quote of the list --------------------------------------------------------------

  ghost predicate Ready(list: seq<PathQuote>, maxSplits: int, current: Route) {
    && Distinct(list)
    && (forall q :: q in list ==> q.splitPercent >= 1)
    && SetOf(list) !! SetOf(current.quotes)
    && current.splitPercent < 100
    && (maxSplits >= 1 ==> |current.quotes| < maxSplits)
  }

  lemma ReusesPoolSplits(p: PathQuote, quotes: seq<PathQuote>, q: PathQuote)
    ensures ReusesPool(p, quotes + [q]) <==> ReusesPool(p, quotes) || SharesPool(p, q)
  {
    if ReusesPool(p, quotes) {
      var i :| 0 <= i < |quotes| && SharesPool(p, quotes[i]);
      assert SharesPool(p, (quotes + [q])[i]);
    }
    if SharesPool(p, q) {
      assert SharesPool(p, (quotes + [q])[|quotes|]);
    }
    if ReusesPool(p, quotes + [q]) {
      var i :| 0 <= i < |quotes + [q]| && SharesPool(p, (quotes + [q])[i]);
      if i < |quotes| {
        assert SharesPool(p, quotes[i]);
      }
    }
  }

  lemma SharesPoolSymmetric(p: PathQuote, q: PathQuote)
    ensures SharesPool(p, q) == SharesPool(q, p)
  {
  }

  /** Taking the first quote out of a completion leaves a completion of the extended route, and back. */
  lemma CompletionWithFirst(list: seq<PathQuote>, maxSplits: int, current: Route, chosen: set<PathQuote>)
    requires list != [] && Ready(list, maxSplits, current)
    requires chosen <= SetOf(list) && list[0] in chosen
    ensures
      Completes(list, maxSplits, current, chosen) <==>
        !ReusesPool(list[0], current.quotes) &&
        Completes(list[1..], maxSplits, Extend(current, list[0]), chosen - {list[0]})
  {
    var q, rest, others, next := list[0], list[1..], chosen - {list[0]}, Extend(current, list[0]);
    assert q !in rest;
    assert others <= SetOf(rest);
    PercentIgnoresOthers(rest, chosen, others);
    assert |chosen| == |others| + 1;
    forall p | p in others
      ensures ReusesPool(p, next.quotes) <==> ReusesPool(p, current.quotes) || SharesPool(p, q)
    {
      ReusesPoolSplits(p, current.quotes, q);
    }
    if Completes(rest, maxSplits, next, others) && !ReusesPool(q, current.quotes) {
      forall a, b | a in chosen && b in chosen && a != b
        ensures !SharesPool(a, b)
      {
        SharesPoolSymmetric(a, b);
      }
    }
  }

  lemma CompletionWithoutFirst(list: seq<PathQuote>, maxSplits: int, current: Route, chosen: set<PathQuote>)
    requires list != [] && chosen <= SetOf(list) && list[0] !in chosen
    ensures Completes(list, maxSplits, current, chosen) <==> Completes(list[1..], maxSplits, current, chosen)
  {
    assert chosen <= SetOf(list[1..]) by {
      forall q | q in chosen
        ensures q in list[1..]
      {
        assert q in list;
      }
    }
  }

  // ---- Exactly once ------------------------------------------------------------------------------------------------

  lemma {:induction false} CountPickAll(list: seq<PathQuote>, maxSplits: int, current: Route, chosen: set<PathQuote>)
    requires Ready(list, maxSplits, current) && chosen <= SetOf(list)
    ensures CountOf(PickAll(list, maxSplits, current), SetOf(current.quotes) + chosen)
         == if Completes(list, maxSplits, current, chosen) then 1 else 0
    decreases |list|, 1
  {
    if list == [] {
      assert chosen == {};
    } else {
      var q, rest, target := list[0], list[1..], SetOf(current.quotes) + chosen;
      var first, later := Pick(q, rest, maxSplits, current), PickAll(rest, maxSplits, current);
      assert q !in rest;
      CountConcat(first, later, target);
      if q in chosen {
        forall r | r in later
          ensures SetOf(r.quotes) != target
        {
          RoutesStayInList(rest, maxSplits, current, r);
          assert q !in SetOf(r.quotes);
        }
        CountNone(later, target);
        CountPick(list, maxSplits, current, chosen);
      } else {
        forall r | r in first
          ensures SetOf(r.quotes) != target
        {
          PickContains(q, rest, maxSplits, current, r);
          assert q !in target;
        }
        CountNone(first, target);
        CompletionWithoutFirst(list, maxSplits, current, chosen);
        assert Ready(rest, maxSplits, current);
        CountPickAll(rest, maxSplits, current, chosen);
      }
    }
  }

  lemma {:induction false} CountPick(list: seq<PathQuote>, maxSplits: int, current: Route, chosen: set<PathQuote>)
    requires list != [] && Ready(list, maxSplits, current)
    requires chosen <= SetOf(list) && list[0] in chosen
    ensures CountOf(Pick(list[0], list[1..], maxSplits, current), SetOf(current.quotes) + chosen)
         == if Completes(list, maxSplits, current, chosen) then 1 else 0
    decreases |list|, 0
  {
    var q, rest, next, others := list[0], list[1..], Extend(current, list[0]), chosen - {list[0]};
    CompletionWithFirst(list, maxSplits, current, chosen);
    TakingFirst(list, maxSplits, current, chosen);
    CompletionWithinLimits(rest, maxSplits, next, others);
    if next.splitPercent > 100 || ReusesPool(q, current.quotes) {
    } else if next.splitPercent == 100 {
      CountFinished(rest, maxSplits, next, others);
    } else if |current.quotes| + 1 != maxSplits {
      ReadyForRest(list, maxSplits, current);
      CountPickAll(rest, maxSplits, next, others);
    }
  }

  /** What taking the first quote leaves: a smaller list and the same target. */
  lemma TakingFirst(list: seq<PathQuote>, maxSplits: int, current: Route, chosen: set<PathQuote>)
    requires list != [] && Ready(list, maxSplits, current)
    requires chosen <= SetOf(list) && list[0] in chosen
    ensures
      var rest, next, others := list[1..], Extend(current, list[0]), chosen - {list[0]};
      && others <= SetOf(rest) && SetOf(rest) !! SetOf(next.quotes)
      && SetOf(next.quotes) + others == SetOf(current.quotes) + chosen
  {
    var q, rest, next, others := list[0], list[1..], Extend(current, list[0]), chosen - {list[0]};
    assert q !in rest;
    assert others <= SetOf(rest);
    assert SetOf(next.quotes) == SetOf(current.quotes) + {q};
  }

  lemma ReadyForRest(list: seq<PathQuote>, maxSplits: int, current: Route)
    requires list != [] && Ready(list, maxSplits, current)
    requires SetOf(list[1..]) !! SetOf(Extend(current, list[0]).quotes)
    requires Extend(current, list[0]).splitPercent < 100 && |current.quotes| + 1 != maxSplits
    ensures Ready(list[1..], maxSplits, Extend(current, list[0]))
  {
  }

  /** No completion goes beyond 100 percent or the split limit. */
  lemma CompletionWithinLimits(rest: seq<PathQuote>, maxSplits: int, next: Route, others: set<PathQuote>)
    requires (forall q :: q in rest ==> q.splitPercent >= 1) && others <= SetOf(rest)
    ensures Completes(rest, maxSplits, next, others) ==>
      && next.splitPercent <= 100
      && (next.splitPercent < 100 && maxSplits >= 1 ==> |next.quotes| < maxSplits)
  {
    PercentAtLeast(rest, others);
    if others != {} {
      assert |others| >= 1;
    }
  }

  /** A finished route is the only one of its quotes, and completes with nothing. */
  lemma CountFinished(rest: seq<PathQuote>, maxSplits: int, next: Route, others: set<PathQuote>)
    requires next.splitPercent == 100 && (maxSplits >= 1 ==> |next.quotes| <= maxSplits)
    requires SetOf(rest) !! SetOf(next.quotes) && others <= SetOf(rest)
    requires forall q :: q in rest ==> q.splitPercent >= 1
    ensures CountOf([next], SetOf(next.quotes) + others) == if Completes(rest, maxSplits, next, others) then 1 else 0
  {
    OneRoute(next, SetOf(next.quotes) + others);
    PercentAtLeast(rest, others);
    if others == {} {
      assert SetOf(next.quotes) + others == SetOf(next.quotes);
      EmptyCompletes(rest, maxSplits, next);
    } else {
      var q :| q in others;
      assert q !in SetOf(next.quotes);
    }
  }

  lemma OneRoute(r: Route, quotes: set<PathQuote>)
    ensures CountOf([r], quotes) == if SetOf(r.quotes) == quotes then 1 else 0
  {
  }

  lemma EmptyCompletes(list: seq<PathQuote>, maxSplits: int, current: Route)
    requires current.splitPercent == 100 && (maxSplits >= 1 ==> |current.quotes| <= maxSplits)
    ensures Completes(list, maxSplits, current, {})
  {
    NothingChosen(list);
  }

  lemma {:induction false} NothingChosen(list: seq<PathQuote>)
    ensures PercentOf(list, {}) == 0
  {
    if list != [] {
      NothingChosen(list[1..]);
    }
  }

  // ---- Main results ---------------------------------------------------------------------------------------------------

  ghost predicate DistinctQuotes(c: Candidates) {
    forall i :: 0 <= i < |c| ==> Distinct(c[i].quotes)
  }

  lemma {:induction false} InFlat(c: Candidates, i: nat, q: PathQuote)
    requires i <= |c|
    ensures q in Flat(c, [], i) <==> exists k :: 0 <= k < i && q in c[k].quotes
  {
    if i > 0 {
      InFlat(c, i - 1, q);
    }
  }

  lemma {:induction false} FlatIsDistinct(c: Candidates, i: nat)
    requires WellFormed(c) && DistinctQuotes(c) && i <= |c|
    ensures Distinct(Flat(c, [], i))
    ensures forall q :: q in Flat(c, [], i) ==> q.splitPercent >= 1
  {
    if i > 0 {
      FlatIsDistinct(c, i - 1);
      forall q | q in Flat(c, [], i - 1)
        ensures q.splitPercent < c[i - 1].percent
      {
        InFlat(c, i - 1, q);
      }
    }
  }

  /** A set of the map's quotes that carries 100 percent over disjoint pools within the split limit, if there is one. */
  ghost predicate IsSplit(c: Candidates, maxSplits: int, chosen: set<PathQuote>) {
    && chosen <= SetOf(AllQuotes(c))
    && PercentOf(AllQuotes(c), chosen) == 100
    && (maxSplits >= 1 ==> |chosen| <= maxSplits)
    && PoolsDisjoint(chosen)
  }

  /**
    For every set of quotes whatsoever: the enumeration emits exactly one route made of it if it is
    a split, and none if it is not.
  */
  lemma RoutesAreExact(c: Candidates, maxSplits: int, chosen: set<PathQuote>)
    requires WellFormed(c) && DistinctQuotes(c)
    ensures CountOf(BuildRoutes(c, maxSplits, EMPTY_ROUTE), chosen) == if IsSplit(c, maxSplits, chosen) then 1 else 0
  {
    var list := AllQuotes(c);
    BuildRoutesIsPickAll(c, maxSplits);
    FlatIsDistinct(c, |c|);
    if chosen <= SetOf(list) {
      CountPickAll(list, maxSplits, EMPTY_ROUTE, chosen);
      assert SetOf(EMPTY_ROUTE.quotes) + chosen == chosen;
    } else {
      forall r | r in PickAll(list, maxSplits, EMPTY_ROUTE)
        ensures SetOf(r.quotes) != chosen
      {
        RoutesStayInList(list, maxSplits, EMPTY_ROUTE, r);
      }
      CountNone(PickAll(list, maxSplits, EMPTY_ROUTE), chosen);
    }
  }

  ghost function SumIn(quotes: seq<PathQuote>): int {
    if quotes == [] then 0 else SumIn(quotes[..|quotes| - 1]) + quotes[|quotes| - 1].amountIn
  }

  ghost function SumOut(quotes: seq<PathQuote>): int {
    if quotes == [] then 0 else SumOut(quotes[..|quotes| - 1]) + quotes[|quotes| - 1].amountOut
  }

  ghost function SumPercent(quotes: seq<PathQuote>): int {
    if quotes == [] then 0 else SumPercent(quotes[..|quotes| - 1]) + quotes[|quotes| - 1].splitPercent
  }

  /** The running totals of a route are the sums over its quotes. */
  ghost predicate TotalsAgree(r: Route) {
    r.splitPercent == SumPercent(r.quotes) && r.totalIn == SumIn(r.quotes) && r.totalOut == SumOut(r.quotes)
  }

  ghost predicate LargestFirst(quotes: seq<PathQuote>) {
    forall i, j :: 0 <= i < j < |quotes| ==> quotes[i].splitPercent >= quotes[j].splitPercent
  }

  lemma ExtendKeepsTotals(r: Route, q: PathQuote)
    requires TotalsAgree(r)
    ensures TotalsAgree(Extend(r, q))
  {
    assert Extend(r, q).quotes[..|r.quotes|] == r.quotes;
  }

  lemma {:induction false} PickedTotalsAgree(list: seq<PathQuote>, maxSplits: int, current: Route, r: Route)
    requires TotalsAgree(current) && r in PickAll(list, maxSplits, current)
    ensures TotalsAgree(r) && r.splitPercent == 100 && r.quotes != []
    decreases |list|
  {
    PickedFirstOrLater(list, maxSplits, current, r);
    if r in Pick(list[0], list[1..], maxSplits, current) {
      var next := Extend(current, list[0]);
      ExtendKeepsTotals(current, list[0]);
      PickedWith(list[0], list[1..], maxSplits, current, r);
      if next.splitPercent < 100 {
        PickedTotalsAgree(list[1..], maxSplits, next, r);
      }
    } else {
      PickedTotalsAgree(list[1..], maxSplits, current, r);
    }
  }

  /** Quotes are picked in list order, so each at most once and never a larger percentage after a smaller one. */
  lemma {:induction false} PickedInOrder(list: seq<PathQuote>, maxSplits: int, current: Route, r: Route)
    requires r in PickAll(list, maxSplits, current)
    requires Distinct(list) && LargestFirst(list) && Distinct(current.quotes) && LargestFirst(current.quotes)
    requires SetOf(list) !! SetOf(current.quotes)
    requires forall i, j :: 0 <= i < |current.quotes| && 0 <= j < |list| ==>
      current.quotes[i].splitPercent >= list[j].splitPercent
    ensures Distinct(r.quotes) && LargestFirst(r.quotes)
    decreases |list|
  {
    PickedFirstOrLater(list, maxSplits, current, r);
    var q, rest := list[0], list[1..];
    assert q !in rest;
    assert SetOf(rest) <= SetOf(list);
    assert LargestFirst(rest) && Distinct(rest);
    if r in Pick(q, rest, maxSplits, current) {
      ExtendInOrder(list, current.quotes);
      PickedWith(q, rest, maxSplits, current, r);
      var next := Extend(current, q);
      if next.splitPercent < 100 {
        PickedInOrder(rest, maxSplits, next, r);
      }
    } else {
      PickedInOrder(rest, maxSplits, current, r);
    }
  }

  lemma ExtendInOrder(list: seq<PathQuote>, quotes: seq<PathQuote>)
    requires list != [] && Distinct(list) && LargestFirst(list) && Distinct(quotes) && LargestFirst(quotes)
    requires SetOf(list) !! SetOf(quotes)
    requires forall i, j :: 0 <= i < |quotes| && 0 <= j < |list| ==> quotes[i].splitPercent >= list[j].splitPercent
    ensures
      var extended, rest := quotes + [list[0]], list[1..];
      && Distinct(extended) && LargestFirst(extended) && SetOf(rest) !! SetOf(extended)
      && forall i, j :: 0 <= i < |extended| && 0 <= j < |rest| ==> extended[i].splitPercent >= rest[j].splitPercent
  {
    var q, rest := list[0], list[1..];
    assert q !in rest;
    assert q in SetOf(list);
    assert forall i :: 0 <= i < |quotes| ==> quotes[i] in SetOf(quotes);
    assert SetOf(quotes + [q]) == SetOf(quotes) + {q};
    assert SetOf(rest) <= SetOf(list);
  }

  lemma FlatBelowKey(c: Candidates, i: nat)
    requires WellFormed(c) && i < |c|
    ensures forall q :: q in Flat(c, [], i) ==> q.splitPercent < c[i].percent
  {
    forall q | q in Flat(c, [], i)
      ensures q.splitPercent < c[i].percent
    {
      InFlat(c, i, q);
    }
  }

  lemma {:induction false} FlatLargestFirst(c: Candidates, i: nat)
    requires WellFormed(c) && i <= |c|
    ensures LargestFirst(Flat(c, [], i))
  {
    if i > 0 {
      FlatLargestFirst(c, i - 1);
      FlatBelowKey(c, i - 1);
      JoinLargestFirst(c[i - 1].quotes, Flat(c, [], i - 1), c[i - 1].percent);
    }
  }

  lemma JoinLargestFirst(a: seq<PathQuote>, b: seq<PathQuote>, percent: int)
    requires forall i :: 0 <= i < |a| ==> a[i].splitPercent == percent
    requires LargestFirst(b) && forall q :: q in b ==> q.splitPercent < percent
    ensures LargestFirst(a + b)
  {
    forall i, j | 0 <= i < j < |a + b|
      ensures (a + b)[i].splitPercent >= (a + b)[j].splitPercent
    {
      if i < |a| <= j {
        assert b[j - |a|] in b;
      }
    }
  }

  /** Every emitted route is a split, listed largest percentage first, with correct totals. */
  lemma EmittedRoute(c: Candidates, maxSplits: int, r: Route)
    requires WellFormed(c) && DistinctQuotes(c) && r in BuildRoutes(c, maxSplits, EMPTY_ROUTE)
    ensures IsSplit(c, maxSplits, SetOf(r.quotes))
    ensures TotalsAgree(r) && r.splitPercent == 100
    ensures Distinct(r.quotes) && LargestFirst(r.quotes) && |r.quotes| == |SetOf(r.quotes)|
  {
    BuildRoutesIsPickAll(c, maxSplits);
    FlatIsDistinct(c, |c|);
    FlatLargestFirst(c, |c|);
    PickedTotalsAgree(AllQuotes(c), maxSplits, EMPTY_ROUTE, r);
    PickedInOrder(AllQuotes(c), maxSplits, EMPTY_ROUTE, r);
    CountedOnce(BuildRoutes(c, maxSplits, EMPTY_ROUTE), r);
    RoutesAreExact(c, maxSplits, SetOf(r.quotes));
    DistinctSize(r.quotes);
  }

  lemma {:induction false} CountedOnce(routes: seq<Route>, r: Route)
    requires r in routes
    ensures CountOf(routes, SetOf(r.quotes)) >= 1
  {
    if r != routes[0] {
      assert r in routes[1..];
      CountedOnce(routes[1..], r);
    }
  }

  lemma {:induction false} DistinctSize(quotes: seq<PathQuote>)
    requires Distinct(quotes)
    ensures |SetOf(quotes)| == |quotes|
  {
    if quotes == [] {
    } else {
      var front, last := quotes[..|quotes| - 1], quotes[|quotes| - 1];
      DistinctSize(front);
      assert quotes == front + [last];
      assert SetOf(quotes) == SetOf(front) + {last};
    }
  }

  // ---- Direct routes ------------------------------------------------------------------------------------------------

  /** Routes of a single hop for the whole trade, listed separately. */
  function SingleHopSplit(c: Candidates): seq<Route> {
    if c == [] then []
    else if c[0].percent == 100 then SingleHops(c[0].quotes)
    else SingleHopSplit(c[1..])
  }

  function SingleHops(quotes: seq<PathQuote>): seq<Route> {
    if quotes == [] then []
    else
      var q := quotes[0];
      (if |q.hops| == 1 then [Route([q], 100, q.hops[0].amountIn, q.hops[0].amountOut)] else []) + SingleHops(quotes[1..])
  }

  /**
    Each direct quote for the whole trade is already a route of the enumeration, so concatenating the
    two lists, as is done before the final sort, lists it twice unless ranking dropped it.
  */
  lemma DirectRoutesAppearTwice(c: Candidates, maxSplits: int, i: nat, q: PathQuote)
    requires WellFormed(c) && DistinctQuotes(c) && i < |c| && c[i].percent == 100
    requires q in c[i].quotes && |q.hops| == 1
    ensures CountOf(BuildRoutes(c, maxSplits, EMPTY_ROUTE), {q}) == 1
    ensures CountOf(SingleHopSplit(c), {q}) == 1
  {
    InFlat(c, |c|, q);
    FlatIsDistinct(c, |c|);
    PercentOfOne(AllQuotes(c), q);
    RoutesAreExact(c, maxSplits, {q});
    SingleHopKey(c, i, q);
  }

  lemma {:induction false} PercentOfOne(list: seq<PathQuote>, q: PathQuote)
    requires Distinct(list)
    ensures PercentOf(list, {q}) == if q in list then q.splitPercent else 0
  {
    if list != [] {
      assert list[0] !in list[1..];
      PercentOfOne(list[1..], q);
    }
  }

  lemma {:induction false} SingleHopKey(c: Candidates, i: nat, q: PathQuote)
    requires WellFormed(c) && DistinctQuotes(c) && i < |c| && c[i].percent == 100
    requires q in c[i].quotes && |q.hops| == 1
    ensures CountOf(SingleHopSplit(c), {q}) == 1
  {
    if i == 0 {
      SingleHopCount(c[0].quotes, q);
    } else {
      SingleHopKey(c[1..], i - 1, q);
    }
  }

  lemma {:induction false} SingleHopCount(quotes: seq<PathQuote>, q: PathQuote)
    requires Distinct(quotes) && |q.hops| == 1
    ensures CountOf(SingleHops(quotes), {q}) == if q in quotes then 1 else 0
  {
    if quotes != [] {
      var first, rest := quotes[0], quotes[1..];
      assert first !in rest;
      SingleHopCount(rest, q);
      var head := if |first.hops| == 1 then [Route([first], 100, first.hops[0].amountIn, first.hops[0].amountOut)] else [];
      CountConcat(head, SingleHops(rest), {q});
      assert SetOf([first]) == {first};
      if head != [] {
        OneRoute(head[0], {q});
      }
    }
  }
}
