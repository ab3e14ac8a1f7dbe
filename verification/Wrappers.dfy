/** Results that the source expresses as ``None`` or as a raised exception. */
module Wrappers {

  datatype Option<+T> = None | Some(value: T)

  datatype Result<+T, +E> = Ok(value: T) | Err(error: E)

  /** A list comprehension whose element may raise: all results, or none. */
  function MapAll<A, B>(s: seq<A>, f: A -> Option<B>): Option<seq<B>> {
    if s == [] then Some([]) else
    match (f(s[0]), MapAll(s[1..], f))
    case (Some(first), Some(rest)) => Some([first] + rest)
    case _ => None
  }

  lemma {:induction false} MapAllConcat<A, B>(a: seq<A>, b: seq<A>, f: A -> Option<B>)
    ensures MapAll(a + b, f).Some? <==> MapAll(a, f).Some? && MapAll(b, f).Some?
    ensures MapAll(a + b, f).Some? ==> MapAll(a + b, f).value == MapAll(a, f).value + MapAll(b, f).value
    ensures MapAll(a, f).Some? ==> |MapAll(a, f).value| == |a|
  {
    if a == [] {
      assert a + b == b;
    } else {
      assert (a + b)[1..] == a[1..] + b && (a + b)[0] == a[0];
      MapAllConcat(a[1..], b, f);
    }
  }

  lemma MapAllInsert<A, B>(a: seq<A>, x: A, b: seq<A>, f: A -> Option<B>)
    requires f(x).Some? && MapAll(a + b, f).Some?
    ensures var all := MapAll(a + b, f).value;
            && |all| == |a| + |b|
            && MapAll(a + [x] + b, f) == Some(all[..|a|] + [f(x).value] + all[|a|..])
  {
    MapAllConcat(a, b, f);
    MapAllConcat(b, [], f);
    MapAllConcat(a + [x], b, f);
    MapAllConcat(a, [x], f);
    assert [x][1..] == [] && MapAll([x][1..], f) == Some([]);
    assert MapAll([x], f) == Some([f(x).value]) by { assert [f(x).value] + [] == [f(x).value]; }
    var l, r := MapAll(a, f).value, MapAll(b, f).value;
    assert (l + r)[..|a|] == l && (l + r)[|a|..] == r;
  }

  /** A list comprehension with a condition. */
  function Filter<A>(s: seq<A>, keep: A -> bool): seq<A> {
    if s == [] then []
    else (if keep(s[0]) then [s[0]] else []) + Filter(s[1..], keep)
  }

  lemma {:induction false} FilterConcat<A>(a: seq<A>, b: seq<A>, keep: A -> bool)
    ensures Filter(a + b, keep) == Filter(a, keep) + Filter(b, keep)
  {
    if a == [] {
      assert a + b == b;
    } else {
      assert (a + b)[1..] == a[1..] + b && (a + b)[0] == a[0];
      FilterConcat(a[1..], b, keep);
      var first, rest, last := if keep(a[0]) then [a[0]] else [], Filter(a[1..], keep), Filter(b, keep);
      assert first + (rest + last) == (first + rest) + last;
    }
  }

  lemma {:induction false} FilterAfterFilter<A(!new)>(s: seq<A>, keep: A -> bool, also: A -> bool, both: A -> bool)
    requires forall r :: both(r) <==> keep(r) && also(r)
    ensures Filter(Filter(s, keep), also) == Filter(s, both)
  {
    if s != [] {
      FilterAfterFilter(s[1..], keep, also, both);
      FilterConcat(if keep(s[0]) then [s[0]] else [], Filter(s[1..], keep), also);
      assert Filter([s[0]], also) == if also(s[0]) then [s[0]] else [] by {
        assert [s[0]][1..] == [];
        assert Filter([s[0]][1..], also) == [];
      }
    }
  }

  /** ``sum(1 for x in s if p(x))`` */
  function Count<A>(s: seq<A>, p: A -> bool): nat {
    |Filter(s, p)|
  }

  ghost function IndicesOf<A>(s: seq<A>, p: A -> bool): set<int> {
    set i | 0 <= i < |s| && p(s[i])
  }

  lemma {:induction false} CountIsIndices<A>(s: seq<A>, p: A -> bool)
    ensures Count(s, p) == |IndicesOf(s, p)|
  {
    if s != [] {
      var n := |s| - 1;
      var init, last := s[..n], s[n];
      CountIsIndices(init, p);
      assert s == init + [last];
      FilterConcat(init, [last], p);
      assert [last][1..] == [] && Filter([last][1..], p) == [];
      assert IndicesOf(s, p) == IndicesOf(init, p) + if p(last) then {n} else {};
    }
  }

  lemma CountAlike<A, B>(s: seq<A>, p: A -> bool, t: seq<B>, q: B -> bool)
    requires |s| == |t| && forall i :: 0 <= i < |s| ==> (p(s[i]) <==> q(t[i]))
    ensures Count(s, p) == Count(t, q)
  {
    CountIsIndices(s, p);
    CountIsIndices(t, q);
    assert IndicesOf(s, p) == IndicesOf(t, q);
  }

  lemma CountConcat<A>(a: seq<A>, b: seq<A>, p: A -> bool)
    ensures Count(a + b, p) == Count(a, p) + Count(b, p)
  {
    FilterConcat(a, b, p);
  }

  lemma {:induction false} FilterIsShorter<A>(s: seq<A>, p: A -> bool, q: A -> bool)
    requires forall i :: 0 <= i < |s| && p(s[i]) ==> q(s[i])
    ensures Count(s, p) <= Count(s, q)
  {
    if s != [] {
      assert forall i :: 0 <= i < |s| - 1 ==> s[1..][i] == s[i + 1];
      FilterIsShorter(s[1..], p, q);
    }
  }
}
