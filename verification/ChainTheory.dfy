/**
 Hash chains over any kind of row, record and hash: what it means for a log to be in order and what
 a verified log pins down. The decision log and the in-memory audit chain are both instances.
 */
module ChainTheory {
  import opened Wrappers

  /**
   A row as verification reads it: the record the digest covers, the two hashes the row claims when
   they have the type they are compared as, and the hash its successor must link to.
   */
  datatype Link<+R, +H> =
    | Legacy
    | Linked(record: R, previous: Option<H>, current: Option<H>, hash: H)

  datatype Scheme<!T(!new), !R(!new, ==), !H(!new, ==)> =
    Scheme(read: T -> Link<R, H>, digest: R -> H, predecessor: R -> H, genesis: H)
  {
    /** Reading is coherent: a claimed hash that has the right type is the one that is used. */
    ghost predicate Coherent() {
      forall t :: var l := read(t); l.Linked? ==>
        && (l.previous.Some? ==> predecessor(l.record) == l.previous.value)
        && (l.current.Some? ==> l.hash == l.current.value)
    }

    /** A legacy row leaves the chain at genesis. */
    function HashOf(row: T): H {
      if read(row).Linked? then read(row).hash else genesis
    }

    /** The hash a row at index ``i`` must carry as its predecessor. */
    function Before(rows: seq<T>, i: nat): H
      requires i <= |rows|
    {
      if i == 0 then genesis else HashOf(rows[i - 1])
    }

    predicate Fits(row: T, previousHash: H) {
      var l := read(row);
      l.Linked? && l.previous == Some(previousHash) && l.current == Some(digest(l.record))
    }

    /** Legacy rows only lead; a chained row fits the row before it. */
    predicate InPlace(rows: seq<T>, i: nat)
      requires i < |rows|
    {
      if read(rows[i]).Linked? then Fits(rows[i], Before(rows, i)) else i == 0 || read(rows[i - 1]).Legacy?
    }

    ghost predicate InOrder(rows: seq<T>, n: nat)
      requires n <= |rows|
    {
      forall i :: 0 <= i < n ==> InPlace(rows, i)
    }

    ghost predicate Verified(rows: seq<T>) {
      InOrder(rows, |rows|)
    }

    ghost predicate FullyChained(rows: seq<T>) {
      forall i :: 0 <= i < |rows| ==> read(rows[i]).Linked?
    }

    ghost predicate Unchained(rows: seq<T>) {
      forall i :: 0 <= i < |rows| ==> read(rows[i]).Legacy?
    }

    /** A verified log with no legacy rows. */
    ghost predicate Chain(rows: seq<T>) {
      Coherent() && Verified(rows) && FullyChained(rows)
    }

    ghost function Records(rows: seq<T>): set<R> {
      set i | 0 <= i < |rows| && read(rows[i]).Linked? :: read(rows[i]).record
    }

    /**
     The only cryptographic assumption, made about the finitely many records at hand: their digests
     do not collide and none of them is the genesis value.
     */
    ghost predicate CollisionFree(records: set<R>) {
      && (forall x, y :: x in records && y in records && digest(x) == digest(y) ==> x == y)
      && (forall x :: x in records ==> digest(x) != genesis)
    }

    /** ``v`` is the truth about ``rows``: the first row out of place, and the tally of rows before it. */
    ghost predicate Reports(rows: seq<T>, v: ChainVerification) {
      var sound := v.Sound(|rows|);
      && sound <= |rows|
      && v.verified == v.brokenAt.None?
      && InOrder(rows, sound)
      && (v.brokenAt.Some? ==> sound < |rows| && !InPlace(rows, sound))
      && v.chainedRows + v.unchainedLeading == sound
      && (forall i :: 0 <= i < v.unchainedLeading ==> read(rows[i]).Legacy?)
      && (forall i :: v.unchainedLeading <= i < sound ==> read(rows[i]).Linked?)
    }
  }

  datatype ChainVerification =
    ChainVerification(verified: bool, chainedRows: nat, unchainedLeading: nat, brokenAt: Option<nat>)
  {
    /** How many leading rows were found in order. */
    function Sound(total: nat): nat {
      if brokenAt.Some? then brokenAt.value else total
    }
  }

  /** One pass over the rows, stopping at the first break. */
  method VerifyRows<T(!new), R(!new, ==), H(!new, ==)>(s: Scheme<T, R, H>, rows: seq<T>)
    returns (v: ChainVerification)
    ensures s.Reports(rows, v)
  {
    var previousHash, chained, unchainedLeading, started := s.genesis, 0, 0, false;
    for index := 0 to |rows|
      invariant chained + unchainedLeading == index
      invariant started <==> chained > 0
      invariant previousHash == s.Before(rows, index)
      invariant s.InOrder(rows, index)
      invariant forall i :: 0 <= i < unchainedLeading ==> s.read(rows[i]).Legacy?
      invariant forall i :: unchainedLeading <= i < index ==> s.read(rows[i]).Linked?
    {
      var row := rows[index];
      if s.read(row).Legacy? {
        if started {
          return ChainVerification(false, chained, unchainedLeading, Some(index));
        }
        unchainedLeading := unchainedLeading + 1;
        continue;
      }
      started := true;
      if !s.Fits(row, previousHash) {
        return ChainVerification(false, chained, unchainedLeading, Some(index));
      }
      previousHash := s.read(row).hash;
      chained := chained + 1;
    }
    return ChainVerification(true, chained, unchainedLeading, None);
  }

  lemma ReportIsUnique<T(!new), R(!new), H(!new)>(
      s: Scheme<T, R, H>, rows: seq<T>, v: ChainVerification, w: ChainVerification)
    requires s.Reports(rows, v) && s.Reports(rows, w)
    ensures v == w
  {
    var a, b := v.Sound(|rows|), w.Sound(|rows|);
    assert a == b;
    if v.unchainedLeading < a { assert s.read(rows[v.unchainedLeading]).Linked?; }
    if w.unchainedLeading < b { assert s.read(rows[w.unchainedLeading]).Linked?; }
  }

  lemma PrefixVerifies<T(!new), R(!new), H(!new)>(s: Scheme<T, R, H>, rows: seq<T>, n: nat)
    requires s.Verified(rows) && n <= |rows|
    ensures s.Verified(rows[..n])
  {
    forall i | 0 <= i < n ensures s.InPlace(rows[..n], i) { assert s.InPlace(rows, i); }
  }

  /** A row added at the end is in place iff it fits the tail; the rows before it are unaffected. */
  lemma AppendVerifiesIff<T(!new), R(!new), H(!new)>(s: Scheme<T, R, H>, rows: seq<T>, row: T)
    requires s.read(row).Linked?
    ensures s.Verified(rows + [row]) <==> s.Verified(rows) && s.Fits(row, s.Before(rows, |rows|))
    ensures s.Before(rows + [row], |rows| + 1) == s.read(row).hash
  {
    var more, n := rows + [row], |rows|;
    assert more[n] == row && s.Before(more, n) == s.Before(rows, n);
    forall i | 0 <= i < n ensures s.InPlace(more, i) == s.InPlace(rows, i) { assert more[i] == rows[i]; }
    assert s.InOrder(more, n + 1) <==> s.InOrder(rows, n) && s.InPlace(more, n);
  }

  /** Rows that each fit the log before them neither break a verified log nor repair a broken one. */
  lemma {:induction false} FittingRowsKeepVerdict<T(!new), R(!new), H(!new)>(
      s: Scheme<T, R, H>, base: seq<T>, log: seq<T>)
    requires forall i :: 0 <= i < |log| ==> s.Fits(log[i], s.Before(base + log[..i], |base| + i))
    ensures s.Verified(base + log) <==> s.Verified(base)
  {
    if log == [] {
      assert base + log == base;
    } else {
      var n := |log| - 1;
      var init := log[..n];
      assert forall i :: 0 <= i < n ==> init[..i] == log[..i];
      FittingRowsKeepVerdict(s, base, init);
      assert base + log == (base + init) + [log[n]];
      AppendVerifiesIff(s, base + init, log[n]);
    }
  }

  /** Only what is read from the rows matters: two schemes that read two logs alike judge them alike. */
  lemma SameReadingSameVerdict<T(!new), U(!new), R(!new), H(!new)>(
      s: Scheme<T, R, H>, a: seq<T>, s': Scheme<U, R, H>, b: seq<U>)
    requires |a| == |b| && s.genesis == s'.genesis && s.digest == s'.digest
    requires forall i :: 0 <= i < |a| ==> s.read(a[i]) == s'.read(b[i])
    ensures s.Verified(a) <==> s'.Verified(b)
  {
    forall i | 0 <= i < |a| ensures s.InPlace(a, i) == s'.InPlace(b, i) {
      assert s.Before(a, i) == s'.Before(b, i);
    }
  }

  // ---- what a verified chain pins down -------------------------------------------------------

  lemma ChainRow<T(!new), R(!new), H(!new)>(s: Scheme<T, R, H>, a: seq<T>, i: nat)
    requires s.Chain(a) && i < |a|
    ensures s.read(a[i]).record in s.Records(a)
    ensures s.HashOf(a[i]) == s.digest(s.read(a[i]).record)
    ensures s.predecessor(s.read(a[i]).record) == s.Before(a, i)
  {
    assert s.InPlace(a, i);
  }

  /** No two positions of a chain expect the same predecessor, so a row fits in one place only. */
  lemma {:induction false} PlacesAreDistinct<T(!new), R(!new), H(!new)>(s: Scheme<T, R, H>, a: seq<T>, i: nat, k: nat)
    requires s.Chain(a) && s.CollisionFree(s.Records(a)) && i < k <= |a|
    ensures s.Before(a, i) != s.Before(a, k)
  {
    ChainRow(s, a, k - 1);
    if i > 0 {
      ChainRow(s, a, i - 1);
      PlacesAreDistinct(s, a, i - 1, k - 1);
    }
  }

  lemma HashesAreDistinct<T(!new), R(!new), H(!new)>(s: Scheme<T, R, H>, a: seq<T>, i: nat, k: nat)
    requires s.Chain(a) && s.CollisionFree(s.Records(a)) && i < k < |a|
    ensures s.HashOf(a[i]) != s.HashOf(a[k])
  {
    PlacesAreDistinct(s, a, i + 1, k + 1);
  }

  ghost predicate Agree<T>(a: seq<T>, b: seq<T>, n: nat) {
    n <= |a| && n <= |b| && forall i :: 0 <= i < n ==> a[i] == b[i]
  }

  /** Two chains that reach the same hash, after however many rows, have recorded the same history. */
  lemma {:induction false} HashDeterminesHistory<T(!new), R(!new), H(!new)>(
      s: Scheme<T, R, H>, a: seq<T>, m: nat, b: seq<T>, n: nat)
    requires s.Chain(a) && s.Chain(b) && s.CollisionFree(s.Records(a) + s.Records(b))
    requires m <= |a| && n <= |b| && s.Before(a, m) == s.Before(b, n)
    ensures m == n && forall i :: 0 <= i < m ==> s.read(a[i]) == s.read(b[i])
    decreases m
  {
    if m > 0 { ChainRow(s, a, m - 1); }
    if n > 0 { ChainRow(s, b, n - 1); }
    if m > 0 && n > 0 {
      HashDeterminesHistory(s, a, m - 1, b, n - 1);
      assert s.InPlace(a, m - 1) && s.InPlace(b, n - 1);
    }
  }

  /** Two fully chained verified logs with the same last hash agree on every row verification reads. */
  lemma TailDeterminesLog<T(!new), R(!new), H(!new)>(s: Scheme<T, R, H>, a: seq<T>, b: seq<T>)
    requires s.Chain(a) && s.Chain(b) && s.CollisionFree(s.Records(a) + s.Records(b))
    requires s.Before(a, |a|) == s.Before(b, |b|)
    ensures |a| == |b| && forall i :: 0 <= i < |a| ==> s.read(a[i]) == s.read(b[i])
  {
    HashDeterminesHistory(s, a, |a|, b, |b|);
  }

  /** Legacy rows in front neither help nor hurt: the chain behind them is judged on its own. */
  lemma LegacyIsTransparent<T(!new), R(!new), H(!new)>(s: Scheme<T, R, H>, legacy: seq<T>, rest: seq<T>, i: nat)
    requires s.Unchained(legacy) && s.FullyChained(rest) && i < |legacy| + |rest|
    ensures s.InPlace(legacy + rest, i) <==> i < |legacy| || s.InPlace(rest, i - |legacy|)
  {
    var all, n := legacy + rest, |legacy|;
    assert forall k :: 0 <= k < n ==> all[k] == legacy[k];
    assert forall k :: 0 <= k < |rest| ==> all[n + k] == rest[k];
    if n < i { assert all[i - 1] == rest[i - 1 - n]; }
  }

  // ---- what tampering does -------------------------------------------------------------------

  lemma FitsOnlyAt<T(!new), R(!new), H(!new)>(s: Scheme<T, R, H>, a: seq<T>, b: seq<T>, n: nat, k: nat)
    requires s.Chain(a) && s.CollisionFree(s.Records(a)) && Agree(a, b, n)
    requires n < |b| && k < |a| && a[k] == b[n]
    ensures s.InPlace(b, n) <==> k == n
    ensures n < |a| && a[n] == b[n] ==> k == n
  {
    assert s.Before(b, n) == s.Before(a, n);
    assert s.InPlace(a, k);
    if k < n { PlacesAreDistinct(s, a, k, n); }
    if n < k { PlacesAreDistinct(s, a, n, k); }
    if n < |a| { assert s.InPlace(a, n); }
  }

  /** A log put together from rows of a chain is in order exactly as far as it is still that chain. */
  lemma {:induction false} RearrangementAgrees<T(!new), R(!new), H(!new)>(
      s: Scheme<T, R, H>, a: seq<T>, b: seq<T>, n: nat)
    requires s.Chain(a) && s.CollisionFree(s.Records(a)) && n <= |b|
    requires forall i :: 0 <= i < |b| ==> b[i] in a
    ensures s.InOrder(b, n) <==> Agree(a, b, n)
  {
    if n > 0 {
      RearrangementAgrees(s, a, b, n - 1);
      if Agree(a, b, n - 1) {
        assert b[n - 1] in a;
        var k :| 0 <= k < |a| && a[k] == b[n - 1];
        FitsOnlyAt(s, a, b, n - 1, k);
      }
    }
  }

  /**
   Deleting, repeating, inserting or reordering rows of a verified chain, behind any legacy rows:
   verification accepts exactly the truncations, and otherwise reports the first row at which the
   log stops being the original.
   */
  lemma RearrangementIsLocated<T(!new), R(!new), H(!new)>(
      s: Scheme<T, R, H>, legacy: seq<T>, a: seq<T>, b: seq<T>, v: ChainVerification)
    requires s.Chain(a) && s.CollisionFree(s.Records(a))
    requires s.Unchained(legacy) && forall i :: 0 <= i < |b| ==> b[i] in a
    requires s.Reports(legacy + b, v)
    ensures v.verified <==> Agree(a, b, |b|)
    ensures !v.verified ==>
      var n := v.brokenAt.value - |legacy|;
      0 <= n < |b| && Agree(a, b, n) && !Agree(a, b, n + 1)
  {
    forall i | 0 <= i < |b| ensures s.read(b[i]).Linked? { assert b[i] in a; }
    forall i | 0 <= i < |legacy| + |b|
      ensures s.InPlace(legacy + b, i) <==> i < |legacy| || s.InPlace(b, i - |legacy|)
    {
      LegacyIsTransparent(s, legacy, b, i);
    }
    var sound := v.Sound(|legacy| + |b|) - |legacy|;
    forall i | 0 <= i < sound ensures s.InPlace(b, i) { assert s.InPlace(legacy + b, i + |legacy|); }
    RearrangementAgrees(s, a, b, sound);
    if v.brokenAt.Some? { RearrangementAgrees(s, a, b, sound + 1); }
  }

  /** Deleting row ``i`` goes unnoticed only at the end; otherwise its place is where verification stops. */
  lemma DeletionIsLocated<T(!new), R(!new), H(!new)>(
      s: Scheme<T, R, H>, legacy: seq<T>, a: seq<T>, i: nat, v: ChainVerification)
    requires s.Chain(a) && s.CollisionFree(s.Records(a))
    requires s.Unchained(legacy) && i < |a| && s.Reports(legacy + (a[..i] + a[i + 1..]), v)
    ensures v.brokenAt == if i == |a| - 1 then None else Some(|legacy| + i)
  {
    var b := a[..i] + a[i + 1..];
    RearrangementIsLocated(s, legacy, a, b, v);
    assert Agree(a, b, i);
    if i < |a| - 1 {
      HashesAreDistinct(s, a, i, i + 1);
      assert !Agree(a, b, i + 1);
    }
  }

  /** Swapping two rows is reported at the earlier of the two places. */
  lemma SwapIsLocated<T(!new), R(!new), H(!new)>(
      s: Scheme<T, R, H>, legacy: seq<T>, a: seq<T>, i: nat, k: nat, v: ChainVerification)
    requires s.Chain(a) && s.CollisionFree(s.Records(a))
    requires s.Unchained(legacy) && i < k < |a| && s.Reports(legacy + a[i := a[k]][k := a[i]], v)
    ensures v.brokenAt == Some(|legacy| + i)
  {
    var b := a[i := a[k]][k := a[i]];
    RearrangementIsLocated(s, legacy, a, b, v);
    HashesAreDistinct(s, a, i, k);
    assert Agree(a, b, i) && !Agree(a, b, i + 1);
  }

  /**
   Replacing a chained row by any row whatever, re-hashed or not. Short of the last row the log
   still verifies iff verification reads the replacement exactly as it read the original; the last
   row can be rewritten consistently. A detected edit is reported at that row or, if the row itself
   is consistent, at the next one.
   */
  lemma EditIsLocated<T(!new), R(!new), H(!new)>(
      s: Scheme<T, R, H>, rows: seq<T>, i: nat, r': T, v: ChainVerification)
    requires s.Coherent() && s.Verified(rows) && i < |rows| && s.read(rows[i]).Linked?
    requires s.CollisionFree(s.Records(rows) + s.Records([r']))
    requires s.Reports(rows[i := r'], v)
    ensures i + 1 < |rows| ==> (v.verified <==> s.read(r') == s.read(rows[i]))
    ensures i + 1 == |rows| ==> (v.verified <==> s.InPlace(rows[i := r'], i))
    ensures !v.verified ==> v.brokenAt == Some(if s.InPlace(rows[i := r'], i) then i + 1 else i)
  {
    var b := rows[i := r'];
    forall k | 0 <= k < |rows| ensures s.InPlace(rows, k) && (k != i && k != i + 1 ==> s.InPlace(b, k)) {
      assert s.InPlace(rows, k);
    }
    assert s.InPlace(rows, i);
    assert s.Before(b, i) == s.Before(rows, i);
    assert s.read(rows[i]).record in s.Records(rows);
    if s.read(r').Linked? { assert [r'][0] == r' && s.read(r').record in s.Records([r']); }
    if i + 1 < |rows| {
      assert s.InPlace(rows, i + 1) && b[i + 1] == rows[i + 1];
      assert s.InPlace(b, i + 1) <==> s.read(r').Linked? && s.HashOf(r') == s.HashOf(rows[i]);
      assert s.InPlace(b, i) && s.InPlace(b, i + 1) <==> s.read(r') == s.read(rows[i]);
    }
  }

  /** Changing what a row records but not the hash it claims is reported at that very row. */
  lemma EditUnderHashIsLocated<T(!new), R(!new), H(!new)>(
      s: Scheme<T, R, H>, rows: seq<T>, i: nat, r': T, v: ChainVerification)
    requires s.Coherent() && s.Verified(rows) && i < |rows| && s.read(rows[i]).Linked? && s.read(r').Linked?
    requires s.CollisionFree(s.Records(rows) + s.Records([r']))
    requires s.read(r').current == s.read(rows[i]).current && s.read(r').record != s.read(rows[i]).record
    requires s.Reports(rows[i := r'], v)
    ensures v.brokenAt == Some(i)
  {
    EditIsLocated(s, rows, i, r', v);
    assert s.read(rows[i]).record in s.Records(rows);
    assert [r'][0] == r' && s.read(r').record in s.Records([r']);
    assert s.InPlace(rows, i);
    assert !s.InPlace(rows[i := r'], i);
  }
}
