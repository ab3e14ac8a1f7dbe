/**
 The values the runtime stores, signs and scans, and how they are reduced to JSON
 (src/rif_runtime/security.py).
 */
module PythonValues {
  import opened Wrappers

  /** The bit pattern of an IEEE 754 double. All NaNs are one: JSON text has one name for them. */
  type Double = bits: nat | bits < 0x1_0000_0000_0000_0000
                            && (bits % 0x8000_0000_0000_0000 <= 0x7FF0_0000_0000_0000 || bits == 0x7FF8_0000_0000_0000)

  datatype Number = Integer(value: int) | Float(bits: Double)

  /** A JSON value. Member order is not observable: the digest sorts keys and lookups are by key. */
  datatype Json =
    | Null
    | Bool(truth: bool)
    | Num(number: Number)
    | Text(chars: string)
    | Arr(items: seq<Json>)
    | Obj(fields: map<string, Json>)

  type Row = map<string, Json>

  /**
   A Python object. A datetime, UUID or byte string is what its
   rendering call returns (``astimezone(UTC).isoformat()``, ``str``, URL-safe base64).
   */
  datatype Value =
    | NoneValue
    | BoolValue(truth: bool)
    | NumValue(number: Number)
    | StrValue(chars: string)
    | ListValue(items: seq<Value>)
    | TupleValue(items: seq<Value>)
    | SetValue(items: seq<Value>)
    | DictValue(entries: seq<Entry>)
    | DatetimeValue(utcIso: string)
    | UuidValue(canonical: string)
    | BytesValue(base64: string)
    | OtherValue(typeName: string)

  /** One dictionary item in insertion order; ``key`` is ``str`` of the Python key, so two may agree. */
  datatype Entry = Entry(key: string, value: Value)

  /** What canonical JSON and the comparison of signatures raise. */
  datatype TypeError = UnsupportedType(typeName: string) | NonAsciiSignature

  function NormalizeForJson(v: Value): (r: Result<Json, TypeError>)
    decreases v
  {
    match v
    case DictValue(entries) =>
      (match NormalizeEntries(entries)
       case Ok(fields) => Ok(Obj(fields))
       case Err(e) => Err(e))
    case ListValue(items) =>
      (match NormalizeItems(items) case Ok(js) => Ok(Arr(js)) case Err(e) => Err(e))
    case TupleValue(items) =>
      (match NormalizeItems(items) case Ok(js) => Ok(Arr(js)) case Err(e) => Err(e))
    case DatetimeValue(iso) => Ok(Text(iso))
    case UuidValue(canonical) => Ok(Text(canonical))
    case BytesValue(encoded) => Ok(Text(encoded))
    case NoneValue => Ok(Null)
    case BoolValue(b) => Ok(Bool(b))
    case NumValue(number) => Ok(Num(number))
    case StrValue(chars) => Ok(Text(chars))
    case SetValue(_) => Err(UnsupportedType("set"))
    case OtherValue(typeName) => Err(UnsupportedType(typeName))
  }

  function NormalizeItems(items: seq<Value>): (r: Result<seq<Json>, TypeError>)
    ensures r.Ok? ==> |r.value| == |items|
    decreases items
  {
    if items == [] then Ok([]) else
    match NormalizeForJson(items[0])
    case Err(e) => Err(e)
    case Ok(head) =>
      match NormalizeItems(items[1..])
      case Err(e) => Err(e)
      case Ok(tail) => Ok([head] + tail)
  }

  /** A dictionary comprehension: a later item with an equal key text replaces an earlier one. */
  function NormalizeEntries(entries: seq<Entry>): (r: Result<map<string, Json>, TypeError>)
    decreases entries
  {
    if entries == [] then Ok(map[]) else
    var last := entries[|entries| - 1];
    match NormalizeEntries(entries[..|entries| - 1])
    case Err(e) => Err(e)
    case Ok(fields) =>
      match NormalizeForJson(last.value)
      case Err(e) => Err(e)
      case Ok(j) => Ok(fields[last.key := j])
  }

  /** A list normalises element by element, or fails with the error of its first element that does not. */
  lemma {:induction false} ItemsNormalizeEach(items: seq<Value>) returns (bad: nat)
    ensures var r := NormalizeItems(items);
            && (r.Ok? ==> |r.value| == |items|
                          && forall i :: 0 <= i < |items| ==> NormalizeForJson(items[i]) == Ok(r.value[i]))
            && (r.Err? ==> bad < |items| && NormalizeForJson(items[bad]) == Err(r.error)
                           && forall i :: 0 <= i < bad ==> NormalizeForJson(items[i]).Ok?)
    decreases items
  {
    bad := 0;
    if items != [] && NormalizeForJson(items[0]).Ok? {
      var b := ItemsNormalizeEach(items[1..]);
      bad := b + 1;
      assert forall i :: 0 < i < |items| ==> items[i] == items[1..][i - 1];
    }
  }

  /** A dictionary keeps, under each key text, the normal form of the last item with that text. */
  lemma {:induction false} EntriesNormalizeLast(entries: seq<Entry>, key: string) returns (last: nat)
    requires NormalizeEntries(entries).Ok?
    ensures var fields := NormalizeEntries(entries).value;
            && (key in fields <==> exists i :: 0 <= i < |entries| && entries[i].key == key)
            && (key in fields ==> last < |entries| && entries[last].key == key
                                  && NormalizeForJson(entries[last].value) == Ok(fields[key])
                                  && forall i :: last < i < |entries| ==> entries[i].key != key)
    decreases entries
  {
    last := 0;
    if entries != [] {
      var n := |entries| - 1;
      var before := EntriesNormalizeLast(entries[..n], key);
      last := if entries[n].key == key then n else before;
      if i :| 0 <= i < |entries| && entries[i].key == key && i < n { assert entries[..n][i].key == key; }
    }
  }

  /**
   What each kind of object becomes, member by member: lists and tuples become lists, dates, UUIDs and
   byte strings their renderings, and of two dictionary items with one key text the later counts.
   */
  ghost predicate Becomes(v: Value, j: Json)
    decreases v, 0
  {
    match v
    case NoneValue => j == Null
    case BoolValue(truth) => j == Bool(truth)
    case NumValue(number) => j == Num(number)
    case StrValue(chars) => j == Text(chars)
    case ListValue(items) =>
      j.Arr? && |items| == |j.items| && forall i :: 0 <= i < |items| ==> Becomes(items[i], j.items[i])
    case TupleValue(items) =>
      j.Arr? && |items| == |j.items| && forall i :: 0 <= i < |items| ==> Becomes(items[i], j.items[i])
    case DictValue(entries) => j.Obj? && EntriesBecome(entries, j.fields)
    case DatetimeValue(iso) => j == Text(iso)
    case UuidValue(canonical) => j == Text(canonical)
    case BytesValue(base64) => j == Text(base64)
    case SetValue(_) => false
    case OtherValue(_) => false
  }

  ghost predicate BecomesSomething(v: Value)
    decreases v, 1
  {
    exists j :: Becomes(v, j)
  }

  ghost predicate EntriesBecome(entries: seq<Entry>, fields: map<string, Json>)
    decreases entries
  {
    && (forall key :: key in fields <==> exists i :: IsLast(entries, i, key))
    && (forall i :: 0 <= i < |entries| ==> BecomesSomething(entries[i].value))
    && (forall i, key :: IsLast(entries, i, key) && key in fields ==> Becomes(entries[i].value, fields[key]))
  }

  /** The last item under its key text. */
  predicate IsLast(entries: seq<Entry>, i: int, key: string) {
    0 <= i < |entries| && entries[i].key == key && forall k :: i < k < |entries| ==> entries[k].key != key
  }

  /** Normalisation computes exactly that, and raises exactly when there is no such value. */
  lemma {:induction false} NormalizesIff(v: Value, j: Json)
    ensures NormalizeForJson(v) == Ok(j) <==> Becomes(v, j)
    decreases v
  {
    match v
    case ListValue(items) => ItemsNormalizeIff(items, j);
    case TupleValue(items) => ItemsNormalizeIff(items, j);
    case DictValue(entries) => if j.Obj? { EntriesNormalizeIff(entries, j.fields); }
    case _ =>
  }

  lemma {:induction false} ItemsNormalizeIff(items: seq<Value>, j: Json)
    ensures NormalizeItems(items).Ok? && j == Arr(NormalizeItems(items).value) <==>
            j.Arr? && |items| == |j.items| && forall i :: 0 <= i < |items| ==> Becomes(items[i], j.items[i])
    decreases items, 0
  {
    var bad := ItemsNormalizeEach(items);
    if j.Arr? && |items| == |j.items| {
      forall i | 0 <= i < |items|
        ensures NormalizeForJson(items[i]) == Ok(j.items[i]) <==> Becomes(items[i], j.items[i])
      {
        NormalizesIff(items[i], j.items[i]);
      }
      if NormalizeItems(items).Ok? && forall i :: 0 <= i < |items| ==> Becomes(items[i], j.items[i]) {
        assert NormalizeItems(items).value == j.items;
      }
    }
  }

  /** The exact place of the error, if there is one. */
  lemma {:induction false} EntriesNormalizeEach(entries: seq<Entry>)
    ensures NormalizeEntries(entries).Ok? <==> forall i :: 0 <= i < |entries| ==> NormalizeForJson(entries[i].value).Ok?
    decreases entries
  {
    if entries != [] {
      var n := |entries| - 1;
      EntriesNormalizeEach(entries[..n]);
      assert forall i :: 0 <= i < n ==> entries[..n][i] == entries[i];
    }
  }

  ghost predicate LastNormals(entries: seq<Entry>, fields: map<string, Json>) {
    && (forall key :: key in fields <==> exists i :: IsLast(entries, i, key))
    && (forall i, key :: IsLast(entries, i, key) && key in fields ==>
          NormalizeForJson(entries[i].value) == Ok(fields[key]))
  }

  lemma MadeOfLastNormals(entries: seq<Entry>)
    requires NormalizeEntries(entries).Ok?
    ensures LastNormals(entries, NormalizeEntries(entries).value)
  {
    var made := NormalizeEntries(entries).value;
    forall key ensures key in made <==> exists i :: IsLast(entries, i, key)
               ensures forall i :: IsLast(entries, i, key) ==> NormalizeForJson(entries[i].value) == Ok(made[key])
    {
      var last := EntriesNormalizeLast(entries, key);
      if key in made { assert IsLast(entries, last, key); }
      forall i | IsLast(entries, i, key) ensures NormalizeForJson(entries[i].value) == Ok(made[key]) {
        assert entries[i].key == key;
        assert i == last;
      }
    }
  }

  lemma LastNormalsAreUnique(entries: seq<Entry>, a: map<string, Json>, b: map<string, Json>)
    requires LastNormals(entries, a) && LastNormals(entries, b)
    ensures a == b
  {
    forall key | key in a ensures key in b && a[key] == b[key] {
      var i :| IsLast(entries, i, key);
    }
    assert a.Keys == b.Keys;
  }

  lemma {:induction false} ValuesNormalizeIff(entries: seq<Entry>, i: nat)
    requires i < |entries|
    ensures NormalizeForJson(entries[i].value).Ok? <==> BecomesSomething(entries[i].value)
    ensures forall f :: NormalizeForJson(entries[i].value) == Ok(f) <==> Becomes(entries[i].value, f)
    decreases entries, 0
  {
    forall f ensures NormalizeForJson(entries[i].value) == Ok(f) <==> Becomes(entries[i].value, f) {
      NormalizesIff(entries[i].value, f);
    }
    if NormalizeForJson(entries[i].value).Ok? {
      assert Becomes(entries[i].value, NormalizeForJson(entries[i].value).value);
    }
  }

  lemma {:induction false} NormalsBecome(entries: seq<Entry>, fields: map<string, Json>)
    requires forall i :: 0 <= i < |entries| ==> NormalizeForJson(entries[i].value).Ok?
    ensures LastNormals(entries, fields) <==> EntriesBecome(entries, fields)
    decreases entries, 1
  {
    forall i | 0 <= i < |entries| ensures BecomesSomething(entries[i].value) {
      ValuesNormalizeIff(entries, i);
    }
    forall i, key | IsLast(entries, i, key) && key in fields
      ensures Becomes(entries[i].value, fields[key]) <==> NormalizeForJson(entries[i].value) == Ok(fields[key])
    {
      ValuesNormalizeIff(entries, i);
    }
  }

  lemma {:induction false} EntriesNormalizeIff(entries: seq<Entry>, fields: map<string, Json>)
    ensures NormalizeEntries(entries) == Ok(fields) <==> EntriesBecome(entries, fields)
    decreases entries, 2
  {
    EntriesNormalizeEach(entries);
    if NormalizeEntries(entries).Ok? {
      NormalsBecome(entries, fields);
      MadeOfLastNormals(entries);
      if LastNormals(entries, fields) { LastNormalsAreUnique(entries, fields, NormalizeEntries(entries).value); }
    } else {
      var i :| 0 <= i < |entries| && NormalizeForJson(entries[i].value).Err?;
      ValuesNormalizeIff(entries, i);
    }
  }

  /** ``v`` is a Python object equal to the JSON value ``j``, its dictionaries in any order. */
  ghost predicate Represents(v: Value, j: Json)
    decreases v
  {
    match v
    case NoneValue => j == Null
    case BoolValue(b) => j == Bool(b)
    case NumValue(number) => j == Num(number)
    case StrValue(chars) => j == Text(chars)
    case ListValue(items) =>
      j.Arr? && |items| == |j.items| && forall i :: 0 <= i < |items| ==> Represents(items[i], j.items[i])
    case DictValue(entries) => j.Obj? && EntriesRepresent(entries, j.fields)
    case _ => false
  }

  ghost predicate EntriesRepresent(entries: seq<Entry>, fields: map<string, Json>)
    decreases entries
  {
    && (forall i, k :: 0 <= i < k < |entries| ==> entries[i].key != entries[k].key)
    && (forall key :: key in fields <==> exists i :: 0 <= i < |entries| && entries[i].key == key)
    && (forall i :: 0 <= i < |entries| ==> Represents(entries[i].value, fields[entries[i].key]))
  }

  /**
   Normal forms are fixed points: whatever Python object reads back as ``j``, in whatever key
   order, normalises to ``j`` again. This is what lets a stored row rehash to the digest it was
   written with.
   */
  lemma {:induction false} NormalFormIsFixed(v: Value, j: Json)
    requires Represents(v, j)
    ensures NormalizeForJson(v) == Ok(j)
    decreases v
  {
    match v
    case ListValue(items) => ItemsFixed(items, j.items);
    case DictValue(entries) => EntriesFixed(entries, j.fields);
    case _ =>
  }

  lemma {:induction false} ItemsFixed(items: seq<Value>, js: seq<Json>)
    requires |items| == |js|
    requires forall i :: 0 <= i < |items| ==> Represents(items[i], js[i])
    ensures NormalizeItems(items) == Ok(js)
    decreases items
  {
    if items != [] {
      NormalFormIsFixed(items[0], js[0]);
      ItemsFixed(items[1..], js[1..]);
      assert js == [js[0]] + js[1..];
    }
  }

  lemma DropLastEntry(entries: seq<Entry>, fields: map<string, Json>)
    requires entries != [] && EntriesRepresent(entries, fields)
    ensures EntriesRepresent(entries[..|entries| - 1], fields - {entries[|entries| - 1].key})
  {
    var n := |entries| - 1;
    var init, rest := entries[..n], fields - {entries[n].key};
    forall key ensures key in rest <==> exists i :: 0 <= i < |init| && init[i].key == key {
      if key in rest {
        var i :| 0 <= i < |entries| && entries[i].key == key;
        assert init[i].key == key;
      }
      if i :| 0 <= i < |init| && init[i].key == key {
        assert entries[i].key == key && entries[n].key != key;
      }
    }
  }

  lemma AddEntry(entries: seq<Entry>, fields: map<string, Json>, e: Entry, j: Json)
    requires EntriesRepresent(entries, fields) && e.key !in fields && Represents(e.value, j)
    ensures EntriesRepresent(entries + [e], fields[e.key := j])
  {
    var more, added := entries + [e], fields[e.key := j];
    forall i | 0 <= i < |entries| ensures more[i] == entries[i] && entries[i].key in fields {}
    forall key ensures key in added <==> exists i :: 0 <= i < |more| && more[i].key == key {
      if key in fields {
        var i :| 0 <= i < |entries| && entries[i].key == key;
        assert more[i].key == key;
      }
      assert more[|entries|].key == e.key;
    }
  }

  /** ``{key: value for key, value in row.items() if key != omitted}`` */
  function WithoutKey(entries: seq<Entry>, omitted: string): seq<Entry>
    decreases entries
  {
    if entries == [] then [] else
    var last := entries[|entries| - 1];
    WithoutKey(entries[..|entries| - 1], omitted) + (if last.key == omitted then [] else [last])
  }

  lemma AddEntryBack(entries: seq<Entry>, fields: map<string, Json>, e: Entry, omitted: string)
    requires EntriesRepresent(entries, fields - {e.key} - {omitted})
    requires e.key != omitted && e.key in fields && Represents(e.value, fields[e.key])
    ensures EntriesRepresent(entries + [e], fields - {omitted})
  {
    AddEntry(entries, fields - {e.key} - {omitted}, e, fields[e.key]);
    assert (fields - {e.key} - {omitted})[e.key := fields[e.key]] == fields - {omitted};
  }

  lemma {:induction false} WithoutKeyRepresents(entries: seq<Entry>, fields: map<string, Json>, omitted: string)
    requires EntriesRepresent(entries, fields)
    ensures EntriesRepresent(WithoutKey(entries, omitted), fields - {omitted})
    decreases entries
  {
    if entries == [] {
      assert fields - {omitted} == fields;
    } else {
      var last, init := entries[|entries| - 1], entries[..|entries| - 1];
      DropLastEntry(entries, fields);
      WithoutKeyRepresents(init, fields - {last.key}, omitted);
      if last.key == omitted {
        assert WithoutKey(init, omitted) + [] == WithoutKey(init, omitted);
        assert fields - {last.key} - {omitted} == fields - {omitted};
      } else {
        AddEntryBack(WithoutKey(init, omitted), fields, last, omitted);
      }
    }
  }

  lemma {:induction false} EntriesFixed(entries: seq<Entry>, fields: map<string, Json>)
    requires EntriesRepresent(entries, fields)
    ensures NormalizeEntries(entries) == Ok(fields)
    decreases entries
  {
    if entries == [] {
      assert fields == map[];
    } else {
      var last := entries[|entries| - 1];
      DropLastEntry(entries, fields);
      EntriesFixed(entries[..|entries| - 1], fields - {last.key});
      NormalFormIsFixed(last.value, fields[last.key]);
      assert fields == (fields - {last.key})[last.key := fields[last.key]];
    }
  }

  /** Every JSON value is read back as some Python object, so the law above is never vacuous. */
  lemma {:induction false} EveryJsonIsRepresented(j: Json) returns (v: Value)
    ensures Represents(v, j)
    decreases j
  {
    match j
    case Null => v := NoneValue;
    case Bool(b) => v := BoolValue(b);
    case Num(number) => v := NumValue(number);
    case Text(chars) => v := StrValue(chars);
    case Arr(items) =>
      var vs: seq<Value> := [];
      for i := 0 to |items|
        invariant |vs| == i && forall k :: 0 <= k < i ==> Represents(vs[k], items[k])
      {
        var item := EveryJsonIsRepresented(items[i]);
        vs := vs + [item];
      }
      v := ListValue(vs);
    case Obj(fields) =>
      var entries := EveryMemberIsRepresented(j, fields.Keys);
      assert fields - (fields.Keys - fields.Keys) == fields;
      v := DictValue(entries);
  }

  lemma {:induction false} EveryMemberIsRepresented(j: Json, keys: set<string>) returns (entries: seq<Entry>)
    requires j.Obj? && keys <= j.fields.Keys
    ensures EntriesRepresent(entries, j.fields - (j.fields.Keys - keys))
    decreases j, |keys|
  {
    if keys == {} {
      entries := [];
    } else {
      var key :| key in keys;
      var rest := keys - {key};
      var init := EveryMemberIsRepresented(j, rest);
      var value := EveryJsonIsRepresented(j.fields[key]);
      AddEntry(init, j.fields - (j.fields.Keys - rest), Entry(key, value), j.fields[key]);
      assert (j.fields - (j.fields.Keys - rest))[key := j.fields[key]] == j.fields - (j.fields.Keys - keys);
      entries := init + [Entry(key, value)];
    }
  }

  // ---- objects of strings --------------------------------------------------------------------

  /** The JSON object with these members. */
  function Object(keys: seq<string>, texts: seq<string>): Row
    requires |keys| == |texts|
  {
    if keys == [] then map[] else
    var n := |keys| - 1;
    Object(keys[..n], texts[..n])[keys[n] := Text(texts[n])]
  }

  /** ``row[key]`` as a string; ``None`` stands for the exception a missing or wrong value causes. */
  function Field(row: Row, key: string): Option<string> {
    if key in row && row[key].Text? then Some(row[key].chars) else None
  }

  lemma {:induction false} ObjectHolds(keys: seq<string>, texts: seq<string>, i: nat)
    requires |keys| == |texts| && i < |keys| && forall k :: i < k < |keys| ==> keys[k] != keys[i]
    ensures Field(Object(keys, texts), keys[i]) == Some(texts[i])
  {
    var n := |keys| - 1;
    if i < n { ObjectHolds(keys[..n], texts[..n], i); }
  }

  lemma {:induction false} ObjectHasOnly(keys: seq<string>, texts: seq<string>, key: string)
    requires |keys| == |texts|
    ensures key in Object(keys, texts) ==> key in keys
  {
    if keys != [] {
      var n := |keys| - 1;
      ObjectHasOnly(keys[..n], texts[..n], key);
      assert keys[n] in keys;
    }
  }

  lemma {:induction false} EntriesNormalize(entries: seq<Entry>, keys: seq<string>, texts: seq<string>)
    requires |entries| == |keys| == |texts|
    requires forall i :: 0 <= i < |entries| ==>
      entries[i].key == keys[i] && NormalizeForJson(entries[i].value) == Ok(Text(texts[i]))
    ensures NormalizeEntries(entries) == Ok(Object(keys, texts))
  {
    if entries != [] {
      var n := |entries| - 1;
      EntriesNormalize(entries[..n], keys[..n], texts[..n]);
      assert NormalizeForJson(entries[n].value) == Ok(Text(texts[n]));
    }
  }

  ghost predicate Distinct(keys: seq<string>) {
    forall i, k :: 0 <= i < k < |keys| ==> keys[i] != keys[k]
  }

  /** No member of an object goes unsaid in it. */
  lemma ObjectIsInjective(keys: seq<string>, a: seq<string>, b: seq<string>)
    requires |keys| == |a| == |b| && Distinct(keys) && Object(keys, a) == Object(keys, b)
    ensures a == b
  {
    forall i | 0 <= i < |keys| ensures a[i] == b[i] {
      ObjectHolds(keys, a, i);
      ObjectHolds(keys, b, i);
    }
  }
}
