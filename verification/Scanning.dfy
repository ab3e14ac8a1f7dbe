/** Finding instruction-like phrases in text and in nested parameters (src/rif_runtime/mcp/metasploit.py). */
module Scanning {
  import opened Wrappers
  import opened PythonValues

  const INJECTION_PATTERNS: seq<string> := [
    "ignore previous", "ignore all previous", "ignore the above", "disregard previous", "disregard the above",
    "new instructions", "system prompt", "you are now", "you are authorised", "you are authorized",
    "you are permitted", "skip safeguards", "skip the safeguards", "skip governance", "bypass policy",
    "bypass the policy", "bypass governance", "disable governance", "disable the policy", "override policy",
    "override the policy", "grant yourself", "elevate your", "as an administrator", "act as root",
    "no restrictions", "without approval"]

  // ---- string values at any depth ------------------------------------------------------------

  function ValuesOf(entries: seq<Entry>): seq<Value> {
    seq(|entries|, i requires 0 <= i < |entries| => entries[i].value)
  }

  function Strings(v: Value): seq<string>
    decreases v
  {
    match v
    case StrValue(chars) => [chars]
    case DictValue(entries) => StringsOfEntries(entries)
    case ListValue(items) => StringsOfItems(items)
    case TupleValue(items) => StringsOfItems(items)
    case SetValue(items) => StringsOfItems(items)
    case _ => []
  }

  function StringsOfItems(items: seq<Value>): seq<string>
    decreases items
  {
    if items == [] then [] else StringsOfItems(items[..|items| - 1]) + Strings(items[|items| - 1])
  }

  function StringsOfEntries(entries: seq<Entry>): seq<string>
    decreases entries
  {
    if entries == [] then [] else StringsOfEntries(entries[..|entries| - 1]) + Strings(entries[|entries| - 1].value)
  }

  method StringParams(value: Value) returns (collected: seq<string>)
    ensures collected == Strings(value)
    decreases value
  {
    match value {
      case StrValue(chars) => return [chars];
      case DictValue(entries) =>
        collected := [];
        for i := 0 to |entries|
          invariant collected == StringsOfEntries(entries[..i])
        {
          var inner := StringParams(entries[i].value);
          collected := collected + inner;
          assert entries[..i + 1][..i] == entries[..i];
        }
        assert entries[..|entries|] == entries;
      case ListValue(items) => collected := StringItems(items);
      case TupleValue(items) => collected := StringItems(items);
      case SetValue(items) => collected := StringItems(items);
      case _ => return [];
    }
  }

  method StringItems(items: seq<Value>) returns (collected: seq<string>)
    ensures collected == StringsOfItems(items)
    decreases items
  {
    collected := [];
    for i := 0 to |items|
      invariant collected == StringsOfItems(items[..i])
    {
      var inner := StringParams(items[i]);
      collected := collected + inner;
      assert items[..i + 1][..i] == items[..i];
    }
    assert items[..|items|] == items;
  }

  function Children(v: Value): seq<Value> {
    match v
    case DictValue(entries) => ValuesOf(entries)
    case ListValue(items) => items
    case TupleValue(items) => items
    case SetValue(items) => items
    case _ => []
  }

  /** Following the path of positions from ``v`` leads to the string ``s``. */
  ghost predicate StringAt(v: Value, path: seq<nat>, s: string)
    decreases |path|
  {
    if path == [] then v == StrValue(s)
    else path[0] < |Children(v)| && StringAt(Children(v)[path[0]], path[1..], s)
  }

  ghost predicate OccursIn(s: string, v: Value) {
    exists path :: StringAt(v, path, s)
  }

  lemma OccursStep(s: string, v: Value)
    ensures OccursIn(s, v) <==> v == StrValue(s) || exists i :: 0 <= i < |Children(v)| && OccursIn(s, Children(v)[i])
  {
    if path :| StringAt(v, path, s) {
      if path != [] { assert StringAt(Children(v)[path[0]], path[1..], s); }
    }
    if v == StrValue(s) { assert StringAt(v, [], s); }
    if i :| 0 <= i < |Children(v)| && OccursIn(s, Children(v)[i]) {
      var path :| StringAt(Children(v)[i], path, s);
      assert ([i] + path)[1..] == path;
      assert StringAt(v, [i] + path, s);
    }
  }

  /** The collected strings are exactly those reachable in the value, however deep. */
  lemma {:induction false} StringsAreReachable(v: Value, s: string)
    ensures s in Strings(v) <==> OccursIn(s, v)
    decreases v
  {
    OccursStep(s, v);
    match v
    case DictValue(entries) =>
      EntryStringsAreReachable(entries, s);
      assert Children(v) == ValuesOf(entries) && Strings(v) == StringsOfEntries(entries);
    case ListValue(items) => ItemStringsAreReachable(items, s); assert Children(v) == items;
    case TupleValue(items) => ItemStringsAreReachable(items, s); assert Children(v) == items;
    case SetValue(items) => ItemStringsAreReachable(items, s); assert Children(v) == items;
    case _ => assert Children(v) == [];
  }

  lemma {:induction false} ItemStringsAreReachable(items: seq<Value>, s: string)
    ensures s in StringsOfItems(items) <==> exists i :: 0 <= i < |items| && OccursIn(s, items[i])
    decreases items
  {
    if items != [] {
      var n := |items| - 1;
      ItemStringsAreReachable(items[..n], s);
      StringsAreReachable(items[n], s);
      assert (exists i :: 0 <= i < n && OccursIn(s, items[..n][i])) <==>
             (exists i :: 0 <= i < n && OccursIn(s, items[i])) by {
        if i :| 0 <= i < n && OccursIn(s, items[i]) { assert OccursIn(s, items[..n][i]); }
      }
    }
  }

  lemma {:induction false} EntryStringsAreReachable(entries: seq<Entry>, s: string)
    ensures s in StringsOfEntries(entries) <==>
            exists i :: 0 <= i < |ValuesOf(entries)| && OccursIn(s, ValuesOf(entries)[i])
    decreases entries
  {
    if entries != [] {
      var n := |entries| - 1;
      EntryStringsAreReachable(entries[..n], s);
      StringsAreReachable(entries[n].value, s);
      var all, init := ValuesOf(entries), ValuesOf(entries[..n]);
      assert forall i :: 0 <= i < n ==> init[i] == all[i];
      assert (exists i :: 0 <= i < n && OccursIn(s, init[i])) <==> exists i :: 0 <= i < n && OccursIn(s, all[i]) by {
        if i :| 0 <= i < n && OccursIn(s, all[i]) { assert OccursIn(s, init[i]); }
      }
      assert all[n] == entries[n].value;
    }
  }

  // ---- phrases -------------------------------------------------------------------------------

  predicate Contains(s: string, pattern: string) {
    exists i :: 0 <= i <= |s| && pattern <= s[i..]
  }

  /** The phrase stands somewhere in the text. */
  lemma ContainsIff(s: string, pattern: string)
    ensures Contains(s, pattern) <==> exists before: string, after: string :: s == before + pattern + after
  {
    if i :| 0 <= i <= |s| && pattern <= s[i..] {
      assert s == s[..i] + pattern + s[i + |pattern|..];
    }
    if before: string, after: string :| s == before + pattern + after {
      assert s[|before|..] == pattern + after;
    }
  }

  function HitsIn(lowered: string, patterns: seq<string>, hits: seq<string>): seq<string> {
    if patterns == [] then hits else
    var before := HitsIn(lowered, patterns[..|patterns| - 1], hits);
    var pattern := patterns[|patterns| - 1];
    if Contains(lowered, pattern) && pattern !in before then before + [pattern] else before
  }

  function Hits(lower: string -> string, patterns: seq<string>, texts: seq<Option<string>>): seq<string> {
    if texts == [] then [] else
    var before := Hits(lower, patterns, texts[..|texts| - 1]);
    var text := texts[|texts| - 1];
    if text.None? || text.value == "" then before else HitsIn(lower(text.value), patterns, before)
  }

  method ScanForInjection(lower: string -> string, patterns: seq<string>, texts: seq<Option<string>>)
    returns (hits: seq<string>)
    ensures hits == Hits(lower, patterns, texts)
    ensures forall p :: p in hits <==> p in patterns && ShownIn(lower, texts, p)
    ensures InOrderFound(lower, patterns, texts, hits)
  {
    hits := [];
    for i := 0 to |texts|
      invariant hits == Hits(lower, patterns, texts[..i])
    {
      assert texts[..i + 1][..i] == texts[..i];
      if texts[i].None? || texts[i].value == "" { continue; }
      var lowered := lower(texts[i].value);
      hits := ScanText(lowered, patterns, hits);
    }
    assert texts[..|texts|] == texts;
    HitsAreFirstFinds(lower, patterns, texts);
  }

  method ScanText(lowered: string, patterns: seq<string>, before: seq<string>) returns (hits: seq<string>)
    ensures hits == HitsIn(lowered, patterns, before)
  {
    hits := before;
    for k := 0 to |patterns|
      invariant hits == HitsIn(lowered, patterns[..k], before)
    {
      assert patterns[..k + 1][..k] == patterns[..k];
      if Contains(lowered, patterns[k]) && patterns[k] !in hits {
        hits := hits + [patterns[k]];
      }
    }
    assert patterns[..|patterns|] == patterns;
  }

  /** The text is there, is not empty, and holds the phrase in any case of letters. */
  predicate Shows(lower: string -> string, text: Option<string>, pattern: string) {
    text.Some? && text.value != "" && Contains(lower(text.value), pattern)
  }

  /** The first position of ``x``, or the length. */
  function IndexIn<T(==)>(s: seq<T>, x: T): nat {
    if s == [] || s[0] == x then 0 else 1 + IndexIn(s[1..], x)
  }

  /** The first text that shows the phrase, or the number of texts. */
  function FirstShowing(lower: string -> string, texts: seq<Option<string>>, pattern: string): nat {
    if texts == [] || Shows(lower, texts[0], pattern) then 0 else 1 + FirstShowing(lower, texts[1..], pattern)
  }

  lemma {:induction false} IndexInLonger<T>(s: seq<T>, last: T, x: T)
    ensures IndexIn(s + [last], x) == if x in s then IndexIn(s, x) else |s| + if x == last then 0 else 1
    ensures x in s ==> IndexIn(s, x) < |s|
  {
    if s != [] {
      assert (s + [last])[1..] == s[1..] + [last];
      IndexInLonger(s[1..], last, x);
      assert s == [s[0]] + s[1..];
    } else {
      assert [last][1..] == [] && s + [last] == [last];
      assert IndexIn([last], x) == if last == x then 0 else 1 + IndexIn([last][1..], x);
    }
  }

  ghost predicate ShownIn(lower: string -> string, texts: seq<Option<string>>, pattern: string) {
    exists t :: 0 <= t < |texts| && Shows(lower, texts[t], pattern)
  }

  lemma ShownInRest(lower: string -> string, texts: seq<Option<string>>, pattern: string)
    requires texts != []
    ensures ShownIn(lower, texts, pattern) <==> Shows(lower, texts[0], pattern) || ShownIn(lower, texts[1..], pattern)
  {
    if t :| 0 <= t < |texts| && Shows(lower, texts[t], pattern) && t > 0 {
      assert Shows(lower, texts[1..][t - 1], pattern);
    }
  }

  lemma {:induction false} FirstShowingLonger(lower: string -> string, texts: seq<Option<string>>, last: Option<string>,
                                              pattern: string)
    ensures ShownIn(lower, texts + [last], pattern) <==> ShownIn(lower, texts, pattern) || Shows(lower, last, pattern)
    ensures ShownIn(lower, texts, pattern) ==>
      FirstShowing(lower, texts + [last], pattern) == FirstShowing(lower, texts, pattern) < |texts|
    ensures !ShownIn(lower, texts, pattern) && Shows(lower, last, pattern) ==>
      FirstShowing(lower, texts + [last], pattern) == |texts|
  {
    var more := texts + [last];
    ShownInRest(lower, more, pattern);
    if texts != [] {
      assert more[1..] == texts[1..] + [last] && more[0] == texts[0];
      FirstShowingLonger(lower, texts[1..], last, pattern);
      ShownInRest(lower, texts, pattern);
    } else {
      assert more[1..] == [];
    }
  }

  /** Strictly in order of the list: in particular, each at most once. */
  ghost predicate InListOrder(hits: seq<string>, patterns: seq<string>) {
    forall i, k :: 0 <= i < k < |hits| ==> IndexIn(patterns, hits[i]) < IndexIn(patterns, hits[k])
  }

  /** What one text adds: the phrases it shows that were not found before, in the order of the list. */
  lemma {:induction false} TextAdds(lowered: string, patterns: seq<string>, before: seq<string>)
    returns (added: seq<string>)
    ensures HitsIn(lowered, patterns, before) == before + added && InListOrder(added, patterns)
    ensures forall p :: p in added <==> p in patterns && Contains(lowered, p) && p !in before
  {
    added := [];
    if patterns != [] {
      var init, last := patterns[..|patterns| - 1], patterns[|patterns| - 1];
      assert patterns == init + [last];
      added := TextAdds(lowered, init, before);
      forall p
        ensures IndexIn(patterns, p) == if p in init then IndexIn(init, p) else |init| + if p == last then 0 else 1
        ensures p in init ==> IndexIn(init, p) < |init|
      {
        IndexInLonger(init, last, p);
      }
      if Contains(lowered, last) && last !in before + added { added := added + [last]; }
    }
  }

  /** One phrase is found before another: in an earlier text, or in the same one and earlier in the list. */
  predicate FoundBefore(lower: string -> string, patterns: seq<string>, texts: seq<Option<string>>,
                        p: string, q: string)
  {
    var t, u := FirstShowing(lower, texts, p), FirstShowing(lower, texts, q);
    t < u || (t == u && IndexIn(patterns, p) < IndexIn(patterns, q))
  }

  ghost predicate InOrderFound(lower: string -> string, patterns: seq<string>, texts: seq<Option<string>>,
                               hits: seq<string>)
  {
    forall i, k :: 0 <= i < k < |hits| ==> FoundBefore(lower, patterns, texts, hits[i], hits[k])
  }

  lemma AppendInOrder(lower: string -> string, patterns: seq<string>, texts: seq<Option<string>>, last: Option<string>,
                      before: seq<string>, added: seq<string>)
    requires InOrderFound(lower, patterns, texts, before) && InListOrder(added, patterns)
    requires forall p :: p in before ==> ShownIn(lower, texts, p)
    requires forall p :: p in added ==> !ShownIn(lower, texts, p) && Shows(lower, last, p)
    ensures InOrderFound(lower, patterns, texts + [last], before + added)
  {
    var hits, more := before + added, texts + [last];
    forall i, k | 0 <= i < k < |hits| ensures FoundBefore(lower, patterns, more, hits[i], hits[k]) {
      FirstShowingLonger(lower, texts, last, hits[i]);
      FirstShowingLonger(lower, texts, last, hits[k]);
      if i < |before| { assert hits[i] in before; } else { assert hits[i] in added; }
      if k < |before| { assert hits[k] in before; } else { assert hits[k] in added; }
    }
  }

  /**
   The scan reports exactly the phrases of the list that some text shows, in the order in which they are
   first found: by text, and within a text by their place in the list. That order is strict, so each is
   reported once.
   */
  lemma {:induction false} HitsAreFirstFinds(lower: string -> string, patterns: seq<string>, texts: seq<Option<string>>)
    ensures var hits := Hits(lower, patterns, texts);
            && (forall p :: p in hits <==> p in patterns && ShownIn(lower, texts, p))
            && InOrderFound(lower, patterns, texts, hits)
  {
    if texts != [] {
      var init, last := texts[..|texts| - 1], texts[|texts| - 1];
      assert texts == init + [last];
      HitsAreFirstFinds(lower, patterns, init);
      var before := Hits(lower, patterns, init);
      var added: seq<string> := [];
      if last.Some? && last.value != "" { added := TextAdds(lower(last.value), patterns, before); }
      assert Hits(lower, patterns, texts) == before + added;
      forall p ensures ShownIn(lower, texts, p) <==> ShownIn(lower, init, p) || Shows(lower, last, p) {
        FirstShowingLonger(lower, init, last, p);
      }
      AppendInOrder(lower, patterns, init, last, before, added);
    }
  }

  ghost predicate Tainted(lower: string -> string, text: string, patterns: seq<string>) {
    text != "" && exists k :: 0 <= k < |patterns| && Contains(lower(text), patterns[k])
  }

  lemma {:induction false} HitsInExactly(lowered: string, patterns: seq<string>, before: seq<string>)
    ensures HitsIn(lowered, patterns, before) == [] <==>
            before == [] && forall k :: 0 <= k < |patterns| ==> !Contains(lowered, patterns[k])
  {
    if patterns != [] {
      var n := |patterns| - 1;
      HitsInExactly(lowered, patterns[..n], before);
      assert forall k :: 0 <= k < n ==> patterns[..n][k] == patterns[k];
    }
  }

  /** The scan reports nothing exactly when no text contains any of the phrases. */
  lemma {:induction false} ScanIsEmptyIffClean(lower: string -> string, patterns: seq<string>,
                                               texts: seq<Option<string>>)
    ensures Hits(lower, patterns, texts) == [] <==>
            forall i :: 0 <= i < |texts| && texts[i].Some? ==> !Tainted(lower, texts[i].value, patterns)
  {
    if texts != [] {
      var n := |texts| - 1;
      ScanIsEmptyIffClean(lower, patterns, texts[..n]);
      assert forall i :: 0 <= i < n ==> texts[..n][i] == texts[i];
      if texts[n].Some? { HitsInExactly(lower(texts[n].value), patterns, Hits(lower, patterns, texts[..n])); }
    }
  }

  /** The texts a governor scans: free text, untrusted context, and every string of the parameters. */
  function ScannedTexts(text: Option<string>, untrusted: Option<string>, params: Value): seq<Option<string>> {
    var strings := Strings(params);
    [text, untrusted] + seq(|strings|, i requires 0 <= i < |strings| => Some(strings[i]))
  }

  ghost predicate InjectedBy(lower: string -> string, patterns: seq<string>,
                             text: Option<string>, untrusted: Option<string>, params: Value)
  {
    || (text.Some? && Tainted(lower, text.value, patterns))
    || (untrusted.Some? && Tainted(lower, untrusted.value, patterns))
    || exists s :: OccursIn(s, params) && Tainted(lower, s, patterns)
  }

  /** Something is quarantined iff a phrase occurs in the text, the context or anywhere in the parameters. */
  lemma HitsIffInjected(lower: string -> string, patterns: seq<string>,
                        text: Option<string>, untrusted: Option<string>, params: Value)
    ensures Hits(lower, patterns, ScannedTexts(text, untrusted, params)) != [] <==>
            InjectedBy(lower, patterns, text, untrusted, params)
  {
    var texts, strings := ScannedTexts(text, untrusted, params), Strings(params);
    ScanIsEmptyIffClean(lower, patterns, texts);
    assert texts[0] == text && texts[1] == untrusted;
    assert forall i :: 0 <= i < |strings| ==> texts[i + 2] == Some(strings[i]);
    if i :| 0 <= i < |texts| && texts[i].Some? && Tainted(lower, texts[i].value, patterns) && i >= 2 {
      assert texts[i] == Some(strings[i - 2]);
      StringsAreReachable(params, strings[i - 2]);
    }
    if s :| OccursIn(s, params) && Tainted(lower, s, patterns) {
      StringsAreReachable(params, s);
      var i :| 0 <= i < |strings| && strings[i] == s;
      assert texts[i + 2] == Some(s);
    }
  }
}
