/** Sequences built element by element, each from the ones before it and a request. */
module Growth {

  function Grow<Q, R>(next: (seq<R>, Q) -> R, qs: seq<Q>): (rows: seq<R>)
    ensures |rows| == |qs|
  {
    if qs == [] then [] else
    var before := Grow(next, qs[..|qs| - 1]);
    before + [next(before, qs[|qs| - 1])]
  }

  lemma GrowStep<Q, R>(next: (seq<R>, Q) -> R, qs: seq<Q>, q: Q)
    ensures Grow(next, qs + [q]) == Grow(next, qs) + [next(Grow(next, qs), q)]
  {
    assert (qs + [q])[..|qs|] == qs;
  }

  lemma {:induction false} GrowAt<Q, R>(next: (seq<R>, Q) -> R, qs: seq<Q>, i: nat)
    requires i < |qs|
    ensures Grow(next, qs)[i] == next(Grow(next, qs)[..i], qs[i])
  {
    var init, rows := qs[..|qs| - 1], Grow(next, qs);
    var before := Grow(next, init);
    if i < |init| {
      GrowAt(next, init, i);
      assert rows[..i] == before[..i] && init[i] == qs[i];
    } else {
      assert rows[..i] == before;
    }
  }

  /** Nothing else is built that way. */
  lemma {:induction false} GrowIsUnique<Q, R>(next: (seq<R>, Q) -> R, rows: seq<R>, qs: seq<Q>)
    requires |rows| == |qs| && forall i :: 0 <= i < |rows| ==> rows[i] == next(rows[..i], qs[i])
    ensures rows == Grow(next, qs)
  {
    if rows != [] {
      var n := |rows| - 1;
      assert forall i :: 0 <= i < n ==> rows[..n][..i] == rows[..i];
      GrowIsUnique(next, rows[..n], qs[..n]);
      assert rows == rows[..n] + [rows[n]];
    }
  }
}
