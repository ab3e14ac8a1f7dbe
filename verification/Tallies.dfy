/** Tallying a snapshot of a log by one field (src/rif_runtime/storage/jsonl.py). */
module Tallies {
  import opened Wrappers
  import opened PythonValues

  /** ``row.get(field, "unknown")`` */
  function KeyOf(field: string, row: Row): Json {
    if field in row then row[field] else Text("unknown")
  }

  function KeysOf(field: string, rows: seq<Row>): seq<Json> {
    seq(|rows|, i requires 0 <= i < |rows| => KeyOf(field, rows[i]))
  }

  /** ``out`` says of every value how often it occurs in ``keys``, and names no other value. */
  ghost predicate IsTally<K(!new)>(out: map<K, nat>, keys: seq<K>) {
    && (forall k :: k in out <==> k in multiset(keys))
    && (forall k :: k in out ==> out[k] == multiset(keys)[k])
  }

  /** The row has the value under the field, or lacks the field and the value is the word for that. */
  predicate TalliedAs(field: string, row: Row, value: Json) {
    (field in row && row[field] == value) || (field !in row && value == Text("unknown"))
  }

  ghost function Positions<K(!new)>(keys: seq<K>, key: K): set<int> {
    set i | 0 <= i < |keys| && keys[i] == key
  }

  lemma {:induction false} OccurrencesArePositions<K(!new)>(keys: seq<K>, key: K)
    ensures multiset(keys)[key] == |Positions(keys, key)|
  {
    if keys != [] {
      var n := |keys| - 1;
      OccurrencesArePositions(keys[..n], key);
      assert keys == keys[..n] + [keys[n]];
      assert Positions(keys, key) == Positions(keys[..n], key) + if keys[n] == key then {n} else {};
    }
  }

  /** The tally of a value is the number of rows tallied as it. */
  lemma TallyCountsRows(out: map<Json, nat>, field: string, rows: seq<Row>, value: Json)
    requires IsTally(out, KeysOf(field, rows))
    ensures (if value in out then out[value] else 0) == |set i | 0 <= i < |rows| && TalliedAs(field, rows[i], value)|
    ensures value in out <==> exists i :: 0 <= i < |rows| && TalliedAs(field, rows[i], value)
  {
    var keys := KeysOf(field, rows);
    OccurrencesArePositions(keys, value);
    assert forall i :: 0 <= i < |rows| ==> (keys[i] == value <==> TalliedAs(field, rows[i], value));
    assert Positions(keys, value) == set i | 0 <= i < |rows| && TalliedAs(field, rows[i], value);
    assert value in out <==> exists i :: 0 <= i < |keys| && keys[i] == value;
    if i :| 0 <= i < |keys| && keys[i] == value { assert TalliedAs(field, rows[i], value); }
  }

  method CountBy(field: string, rows: seq<Row>) returns (out: map<Json, nat>)
    ensures IsTally(out, KeysOf(field, rows))
    ensures forall value :: value in out <==> exists i :: 0 <= i < |rows| && TalliedAs(field, rows[i], value)
    ensures forall value :: value in out ==>
      out[value] == |set i | 0 <= i < |rows| && TalliedAs(field, rows[i], value)|
  {
    out := map[];
    ghost var keys := KeysOf(field, rows);
    for i := 0 to |rows|
      invariant IsTally(out, keys[..i])
    {
      var key := KeyOf(field, rows[i]);
      CountOneMore(out, keys[..i], key);
      assert keys[..i + 1] == keys[..i] + [key];
      out := out[key := (if key in out then out[key] else 0) + 1];
    }
    assert keys[..|rows|] == keys;
    forall value
      ensures (if value in out then out[value] else 0) == |set i | 0 <= i < |rows| && TalliedAs(field, rows[i], value)|
      ensures value in out <==> exists i :: 0 <= i < |rows| && TalliedAs(field, rows[i], value)
    {
      TallyCountsRows(out, field, rows, value);
    }
  }

  lemma CountOneMore<K(!new)>(out: map<K, nat>, keys: seq<K>, key: K)
    requires IsTally(out, keys)
    ensures IsTally(out[key := (if key in out then out[key] else 0) + 1], keys + [key])
  {
  }

  ghost function Total<K(!new)>(m: map<K, nat>): nat {
    if m == map[] then 0 else
    assert m.Keys != {};
    var k :| k in m;
    m[k] + Total(m - {k})
  }

  /** The total does not depend on the order in which the entries are added up. */
  lemma {:induction false} TotalFrom<K(!new)>(m: map<K, nat>, k: K)
    requires k in m
    ensures Total(m) == m[k] + Total(m - {k})
    decreases |m|
  {
    var first :| first in m && Total(m) == m[first] + Total(m - {first});
    if first != k {
      TotalFrom(m - {first}, k);
      TotalFrom(m - {k}, first);
      assert m - {first} - {k} == m - {k} - {first};
    }
  }

  /** Every row is counted once: the tallies of a snapshot add up to its number of rows. */
  lemma {:induction false} TalliesAddUp<K(!new)>(out: map<K, nat>, keys: seq<K>)
    requires IsTally(out, keys)
    ensures Total(out) == |keys|
  {
    if keys == [] {
      assert out == map[];
    } else {
      var n := |keys| - 1;
      var last, init := keys[n], keys[..n];
      assert keys == init + [last];
      var count := multiset(init)[last];
      assert last in out && out[last] == count + 1;
      var before := if count == 0 then out - {last} else out[last := count];
      TalliesAddUp(before, init);
      TotalFrom(out, last);
      if count > 0 {
        TotalFrom(before, last);
        assert before - {last} == out - {last};
      }
    }
  }
}
