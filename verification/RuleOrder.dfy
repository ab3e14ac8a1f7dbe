/**
 Python's stable ``sorted(..., key=rank, reverse=True)`` followed by a first-match scan, for any
 kind of rule: which rule wins, and what the outcome does not depend on.
 */
module RuleOrder {
  import opened Wrappers

  function Insert<R>(r: R, s: seq<R>, rank: R -> nat): seq<R> {
    if s == [] || rank(s[0]) <= rank(r) then [r] + s else [s[0]] + Insert(r, s[1..], rank)
  }

  function SortedByRank<R>(rules: seq<R>, rank: R -> nat): seq<R> {
    if rules == [] then [] else Insert(rules[0], SortedByRank(rules[1..], rank), rank)
  }

  function OfRank<R>(rules: seq<R>, rank: R -> nat, k: nat): seq<R> {
    Filter(rules, r => rank(r) == k)
  }

  function FirstMatch<R>(rules: seq<R>, matches: R -> bool): Option<R> {
    if rules == [] then None
    else if matches(rules[0]) then Some(rules[0])
    else FirstMatch(rules[1..], matches)
  }

  predicate Descending<R>(s: seq<R>, rank: R -> nat) {
    |s| <= 1 || (rank(s[0]) >= rank(s[1]) && Descending(s[1..], rank))
  }

  // ---- the sort is a stable sort -------------------------------------------------------------

  lemma {:induction false} InsertKeepsOrder<R>(r: R, s: seq<R>, rank: R -> nat, k: nat)
    requires Descending(s, rank)
    ensures Descending(Insert(r, s, rank), rank)
    ensures OfRank(Insert(r, s, rank), rank, k) == (if rank(r) == k then [r] else []) + OfRank(s, rank, k)
  {
    var t := Insert(r, s, rank);
    if s == [] || rank(s[0]) <= rank(r) {
      assert t[1..] == s;
    } else {
      InsertKeepsOrder(r, s[1..], rank, k);
      assert t[1..] == Insert(r, s[1..], rank);
      if rank(r) == k {
        assert OfRank(s, rank, k) == [] + OfRank(s[1..], rank, k);
        assert OfRank(t, rank, k) == [] + ([r] + OfRank(s[1..], rank, k));
      }
    }
  }

  /** Sorted by falling rank, with the rules of each rank exactly as configured. */
  lemma {:induction false} SortIsStable<R>(rules: seq<R>, rank: R -> nat, k: nat)
    ensures Descending(SortedByRank(rules, rank), rank)
    ensures OfRank(SortedByRank(rules, rank), rank, k) == OfRank(rules, rank, k)
  {
    if rules != [] {
      SortIsStable(rules[1..], rank, k);
      InsertKeepsOrder(rules[0], SortedByRank(rules[1..], rank), rank, k);
    }
  }

  lemma {:induction false} HeadHasHighestRank<R>(s: seq<R>, rank: R -> nat, k: nat)
    requires s != [] && Descending(s, rank) && OfRank(s, rank, k) != []
    ensures k <= rank(s[0])
  {
    if rank(s[0]) != k {
      assert OfRank(s, rank, k) == [] + OfRank(s[1..], rank, k);
      HeadHasHighestRank(s[1..], rank, k);
    }
  }

  lemma HeadIsOfItsRank<R>(s: seq<R>, rank: R -> nat)
    requires s != []
    ensures exists k: nat :: OfRank(s, rank, k) != []
  {
    assert OfRank(s, rank, rank(s[0]))[0] == s[0];
  }

  lemma {:induction false} RanksDetermineOrder<R>(s: seq<R>, t: seq<R>, rank: R -> nat)
    requires Descending(s, rank) && Descending(t, rank)
    requires forall k: nat :: OfRank(s, rank, k) == OfRank(t, rank, k)
    ensures s == t
  {
    if s == [] {
      if t != [] { HeadIsOfItsRank(t, rank); }
    } else {
      var k := rank(s[0]);
      assert OfRank(s, rank, k)[0] == s[0];
      assert OfRank(s, rank, k) == OfRank(t, rank, k);
      HeadHasHighestRank(t, rank, k);
      assert OfRank(t, rank, rank(t[0]))[0] == t[0];
      assert OfRank(s, rank, rank(t[0])) == OfRank(t, rank, rank(t[0]));
      HeadHasHighestRank(s, rank, rank(t[0]));
      forall j: nat ensures OfRank(s[1..], rank, j) == OfRank(t[1..], rank, j) {
        assert OfRank(s, rank, j) == OfRank(t, rank, j);
        DropHead(s, rank, j);
        DropHead(t, rank, j);
      }
      RanksDetermineOrder(s[1..], t[1..], rank);
    }
  }

  lemma DropHead<R>(s: seq<R>, rank: R -> nat, k: nat)
    requires s != []
    ensures rank(s[0]) == k ==> OfRank(s, rank, k)[1..] == OfRank(s[1..], rank, k) && OfRank(s, rank, k)[0] == s[0]
    ensures rank(s[0]) != k ==> OfRank(s, rank, k) == OfRank(s[1..], rank, k)
  {
  }

  /** Only the order within each rank matters. */
  lemma SameRanksSameOrder<R>(rules: seq<R>, rules': seq<R>, rank: R -> nat)
    requires forall k: nat :: OfRank(rules, rank, k) == OfRank(rules', rank, k)
    ensures SortedByRank(rules, rank) == SortedByRank(rules', rank)
  {
    SortIsStable(rules, rank, 0);
    SortIsStable(rules', rank, 0);
    forall k: nat ensures OfRank(SortedByRank(rules, rank), rank, k) == OfRank(SortedByRank(rules', rank), rank, k) {
      SortIsStable(rules, rank, k);
      SortIsStable(rules', rank, k);
    }
    RanksDetermineOrder(SortedByRank(rules, rank), SortedByRank(rules', rank), rank);
  }

  // ---- which rule wins -----------------------------------------------------------------------

  /** Rule ``w`` matches, no match ranks higher, and no match of its rank is configured earlier. */
  ghost predicate Wins<R>(rules: seq<R>, rank: R -> nat, matches: R -> bool, w: nat) {
    && w < |rules| && matches(rules[w])
    && forall i :: 0 <= i < |rules| && matches(rules[i]) ==>
         rank(rules[i]) < rank(rules[w]) || (rank(rules[i]) == rank(rules[w]) && w <= i)
  }

  function FirstRanked<R>(rules: seq<R>, rank: R -> nat, matches: R -> bool): Option<R> {
    FirstMatch(SortedByRank(rules, rank), matches)
  }

  lemma {:induction false} FirstMatchAfterInsert<R>(r: R, s: seq<R>, rank: R -> nat, matches: R -> bool)
    requires Descending(s, rank)
    ensures var first := FirstMatch(s, matches);
            FirstMatch(Insert(r, s, rank), matches) ==
            if matches(r) && (first.None? || rank(first.value) <= rank(r)) then Some(r) else first
    ensures s != [] && FirstMatch(s, matches).Some? ==> rank(FirstMatch(s, matches).value) <= rank(s[0])
  {
    if s != [] {
      var t := Insert(r, s, rank);
      FirstMatchAfterInsert(r, s[1..], rank, matches);
      if rank(s[0]) <= rank(r) { assert t[1..] == s; } else { assert t[1..] == Insert(r, s[1..], rank); }
    }
  }

  /** A rule in front wins when it matches and outranks or ties with whatever wins behind it. */
  lemma FirstRankedStep<R>(rules: seq<R>, rank: R -> nat, matches: R -> bool)
    requires rules != []
    ensures var rest := FirstRanked(rules[1..], rank, matches);
            FirstRanked(rules, rank, matches) ==
            if matches(rules[0]) && (rest.None? || rank(rest.value) <= rank(rules[0])) then Some(rules[0]) else rest
  {
    SortIsStable(rules[1..], rank, 0);
    FirstMatchAfterInsert(rules[0], SortedByRank(rules[1..], rank), rank, matches);
  }

  /** The scan applies the winner, and nothing exactly when nothing matches. */
  lemma {:induction false} ScanFindsWinner<R>(rules: seq<R>, rank: R -> nat, matches: R -> bool) returns (w: nat)
    ensures FirstRanked(rules, rank, matches) == None <==> forall i :: 0 <= i < |rules| ==> !matches(rules[i])
    ensures FirstRanked(rules, rank, matches).Some? ==>
      Wins(rules, rank, matches, w) && FirstRanked(rules, rank, matches) == Some(rules[w])
  {
    w := 0;
    if rules != [] {
      FirstRankedStep(rules, rank, matches);
      var rest := FirstRanked(rules[1..], rank, matches);
      var v := ScanFindsWinner(rules[1..], rank, matches);
      assert forall i :: 0 < i < |rules| ==> rules[i] == rules[1..][i - 1];
      if rest.Some? && !(matches(rules[0]) && rank(rest.value) <= rank(rules[0])) { w := v + 1; }
    }
  }

  lemma WinnerIsUnique<R>(rules: seq<R>, rank: R -> nat, matches: R -> bool, v: nat, w: nat)
    requires Wins(rules, rank, matches, v) && Wins(rules, rank, matches, w)
    ensures v == w
  {
  }

  /** A rule that does not match can be put anywhere without effect. */
  lemma {:induction false} NonMatchingIsInert<R>(a: seq<R>, r: R, b: seq<R>, rank: R -> nat, matches: R -> bool)
    requires !matches(r)
    ensures FirstRanked(a + [r] + b, rank, matches) == FirstRanked(a + b, rank, matches)
  {
    FirstRankedStep(a + [r] + b, rank, matches);
    if a == [] {
      assert (a + [r] + b)[1..] == b == a + b;
    } else {
      FirstRankedStep(a + b, rank, matches);
      assert (a + [r] + b)[1..] == a[1..] + [r] + b && (a + b)[1..] == a[1..] + b;
      NonMatchingIsInert(a[1..], r, b, rank, matches);
    }
  }

  /** Of two stretches, the front one wins ties. */
  lemma {:induction false} FirstRankedOfParts<R>(a: seq<R>, b: seq<R>, rank: R -> nat, matches: R -> bool)
    ensures var front, back := FirstRanked(a, rank, matches), FirstRanked(b, rank, matches);
            FirstRanked(a + b, rank, matches) ==
            if back.Some? && (front.None? || rank(back.value) > rank(front.value)) then back else front
  {
    if a == [] {
      assert a + b == b;
    } else {
      FirstRankedStep(a + b, rank, matches);
      FirstRankedStep(a, rank, matches);
      assert (a + b)[1..] == a[1..] + b && (a + b)[0] == a[0];
      FirstRankedOfParts(a[1..], b, rank, matches);
    }
  }

  /**
   A matching rule put between two stretches takes over unless the first has a match ranked at least
   as high or the second one ranked higher.
   */
  lemma MatchingTakesOver<R>(a: seq<R>, r: R, b: seq<R>, rank: R -> nat, matches: R -> bool)
    requires matches(r)
    ensures var front, back := FirstRanked(a, rank, matches), FirstRanked(b, rank, matches);
            var kept := (front.Some? && rank(front.value) >= rank(r)) || (back.Some? && rank(back.value) > rank(r));
            FirstRanked(a + [r] + b, rank, matches) == if kept then FirstRanked(a + b, rank, matches) else Some(r)
  {
    FirstRankedOfParts(a, b, rank, matches);
    FirstRankedOfParts(a + [r], b, rank, matches);
    FirstRankedOfParts(a, [r], rank, matches);
    FirstRankedStep([r], rank, matches);
    assert [r][1..] == [];
    assert FirstRanked([r][1..], rank, matches) == None;
  }

  /** Setting rules aside before the sort is the same as never letting them match. */
  lemma {:induction false} FilterBeforeRanking<R(!new)>(
      rules: seq<R>, keep: R -> bool, matches: R -> bool, both: R -> bool, rank: R -> nat)
    requires forall r :: both(r) <==> keep(r) && matches(r)
    ensures FirstRanked(Filter(rules, keep), rank, matches) == FirstRanked(rules, rank, both)
  {
    if rules != [] {
      FilterBeforeRanking(rules[1..], keep, matches, both, rank);
      FirstRankedStep(rules, rank, both);
      var kept := Filter(rules, keep);
      if keep(rules[0]) {
        assert kept[1..] == Filter(rules[1..], keep);
        FirstRankedStep(kept, rank, matches);
      } else {
        assert kept == Filter(rules[1..], keep);
      }
    }
  }
}
