/**
 Decisions as rows of the hash-chained log and back: what replay reads from the file is what the
 runtime recorded (src/rif_runtime/runtime.py, src/rif_runtime/replay.py).
 */
module DecisionLog {
  import opened Wrappers
  import opened PythonValues
  import opened Schemas
  import opened Governance
  import opened Utf8
  import opened LogFile
  import opened ChainTheory
  import opened AuditChain
  import opened ChainedStore
  import opened LogGrowth

  const KEYS: seq<string> :=
    ["decision", "actor", "action", "target", "environment", "posture", "reason", "matched_rule", "timestamp"]

  function Texts(iso: int -> string, d: PolicyDecision): seq<string> {
    [DecisionText(d.decision), d.actor, d.action, d.target, d.environment, PostureText(d.posture), d.reason,
     d.matchedRule, iso(d.timestamp)]
  }

  /** ``decision.model_dump()``; ``iso`` renders a time in UTC as ISO 8601. */
  function Dump(iso: int -> string, d: PolicyDecision): seq<Entry> {
    var texts := Texts(iso, d);
    seq(9, i requires 0 <= i < 9 => Entry(KEYS[i], if i == 8 then DatetimeValue(texts[i]) else StrValue(texts[i])))
  }

  function Payload(iso: int -> string, d: PolicyDecision): Row {
    Object(KEYS, Texts(iso, d))
  }

  /** ``_decision_from_row``: the stored time is not used. */
  function FromRow(row: Row, now: int): Option<PolicyDecision> {
    match (Field(row, "decision"), Field(row, "actor"), Field(row, "action"), Field(row, "target"),
           Field(row, "environment"), Field(row, "posture"), Field(row, "reason"), Field(row, "matched_rule"))
    case (Some(decision), Some(actor), Some(action), Some(target), Some(environment), Some(posture), Some(reason),
          Some(rule)) =>
      (match (ParseDecision(decision), ParsePosture(posture))
       case (Some(d), Some(p)) => Some(PolicyDecision(d, actor, action, target, environment, p, reason, rule, now))
       case _ => None)
    case _ => None
  }

  /** ``row.get("decision") == "deny"`` */
  predicate IsDenied(row: Row) {
    Field(row, "decision") == Some("deny")
  }

  function DeniedRows(rows: seq<Row>): nat {
    Count(rows, IsDenied)
  }

  // ---- one decision --------------------------------------------------------------------------

  lemma KeysAreDistinct(i: nat, k: nat)
    requires i < k < |KEYS|
    ensures KEYS[i] != KEYS[k]
  {
  }

  lemma DumpNormalizes(iso: int -> string, d: PolicyDecision)
    ensures NormalizeEntries(Dump(iso, d)) == Ok(Payload(iso, d)) && CHAIN_KEY !in Payload(iso, d)
  {
    EntriesNormalize(Dump(iso, d), KEYS, Texts(iso, d));
    ObjectHasOnly(KEYS, Texts(iso, d), CHAIN_KEY);
    assert forall i :: 0 <= i < |KEYS| ==> KEYS[i][0] != CHAIN_KEY[0];
  }

  lemma FieldsReadBack(iso: int -> string, d: PolicyDecision, row: Row, i: nat)
    requires row - {CHAIN_KEY} == Payload(iso, d) && i < |KEYS|
    ensures Field(row, KEYS[i]) == Some(Texts(iso, d)[i])
  {
    forall k | i < k < |KEYS| ensures KEYS[k] != KEYS[i] { KeysAreDistinct(i, k); }
    ObjectHolds(KEYS, Texts(iso, d), i);
    assert KEYS[i] in row - {CHAIN_KEY} && row[KEYS[i]] == (row - {CHAIN_KEY})[KEYS[i]];
  }

  /** The stored members go by the names of the decision's fields. */
  lemma MembersAreNamed(iso: int -> string, d: PolicyDecision)
    ensures var row := Payload(iso, d);
            && Field(row, "decision") == Some(DecisionText(d.decision)) && Field(row, "actor") == Some(d.actor)
            && Field(row, "action") == Some(d.action) && Field(row, "target") == Some(d.target)
            && Field(row, "environment") == Some(d.environment) && Field(row, "reason") == Some(d.reason)
            && Field(row, "posture") == Some(PostureText(d.posture))
            && Field(row, "matched_rule") == Some(d.matchedRule) && Field(row, "timestamp") == Some(iso(d.timestamp))
  {
    var row := Payload(iso, d);
    DumpNormalizes(iso, d);
    assert row - {CHAIN_KEY} == row;
    forall i | 0 <= i < |KEYS| ensures Field(row, KEYS[i]) == Some(Texts(iso, d)[i]) { FieldsReadBack(iso, d, row, i); }
    assert Field(row, KEYS[0]) == Some(DecisionText(d.decision)) && Field(row, KEYS[1]) == Some(d.actor);
    assert Field(row, KEYS[2]) == Some(d.action) && Field(row, KEYS[3]) == Some(d.target);
    assert Field(row, KEYS[4]) == Some(d.environment) && Field(row, KEYS[5]) == Some(PostureText(d.posture));
    assert Field(row, KEYS[6]) == Some(d.reason) && Field(row, KEYS[7]) == Some(d.matchedRule);
    assert Field(row, KEYS[8]) == Some(iso(d.timestamp));
  }

  /** The row gives the decision back except for its time, which is the time of replay, and tells a denial. */
  ghost predicate Holds(row: Row, d: PolicyDecision) {
    && (forall now: int :: FromRow(row, now) == Some(d.(timestamp := now)))
    && (IsDenied(row) <==> d.decision == Deny)
  }

  /** The stored row of a decision, envelope and all, holds it. */
  lemma DecisionReadsBack(iso: int -> string, d: PolicyDecision, row: Row)
    requires row - {CHAIN_KEY} == Payload(iso, d)
    ensures Holds(row, d)
  {
    forall i | 0 <= i < |KEYS| ensures Field(row, KEYS[i]) == Some(Texts(iso, d)[i]) { FieldsReadBack(iso, d, row, i); }
    assert Field(row, KEYS[0]) == Some(DecisionText(d.decision)) && Field(row, KEYS[1]) == Some(d.actor);
    assert Field(row, KEYS[2]) == Some(d.action) && Field(row, KEYS[3]) == Some(d.target);
    assert Field(row, KEYS[4]) == Some(d.environment) && Field(row, KEYS[5]) == Some(PostureText(d.posture));
    assert Field(row, KEYS[6]) == Some(d.reason) && Field(row, KEYS[7]) == Some(d.matchedRule);
  }

  // ---- a run of appends ----------------------------------------------------------------------

  /** The identifier and time an append stamps its row with. */
  datatype Stamp = Stamp(eventId: string, timestamp: string)

  function RequestFor(iso: int -> string, d: PolicyDecision, stamp: Stamp): Request {
    DumpNormalizes(iso, d);
    Request(Payload(iso, d), stamp.eventId, stamp.timestamp)
  }

  function RequestsFor(iso: int -> string, ds: seq<PolicyDecision>, stamps: nat -> Stamp): seq<Request> {
    seq<Request>(|ds|, i requires 0 <= i < |ds| => RequestFor(iso, ds[i], stamps(i)))
  }

  /** The rows that recording the decisions one by one adds, the ``i``-th of them stamped ``stamps(i)``. */
  function RowsAfter(p: Platform, iso: int -> string, lines: seq<Line<Row>>, ds: seq<PolicyDecision>,
                     stamps: nat -> Stamp): seq<Row>
  {
    RowsFor(p, RowsOf(lines), RequestsFor(iso, ds, stamps))
  }

  /** The log it leaves. */
  function LogAfter(p: Platform, iso: int -> string, lines: seq<Line<Row>>, ds: seq<PolicyDecision>,
                    stamps: nat -> Stamp): seq<Line<Row>>
  {
    Grown(p, lines, RequestsFor(iso, ds, stamps))
  }

  /** Whatever was recorded before, recording a decision succeeds, and adds exactly the bytes of its row. */
  lemma EveryAppendSucceeds(p: Platform, iso: int -> string, lines: seq<Line<Row>>, ds: seq<PolicyDecision>,
                            d: PolicyDecision, stamps: nat -> Stamp)
    requires p.Lawful() && SoundLog(p.codec, lines)
    ensures Appended(p, BytesOf(p.codec, LogAfter(p, iso, lines, ds, stamps)), Dump(iso, d),
                     stamps(|ds|).eventId, stamps(|ds|).timestamp)
            == Ok(BytesOf(p.codec, LogAfter(p, iso, lines, ds + [d], stamps)))
  {
    DumpNormalizes(iso, d);
    var qs, q := RequestsFor(iso, ds, stamps), RequestFor(iso, d, stamps(|ds|));
    assert RequestsFor(iso, ds + [d], stamps) == qs + [q];
    NextAppendSucceeds(p, lines, qs, Dump(iso, d), q);
  }

  /** ``rows`` hold the decisions, in order. */
  ghost predicate RowsHold(rows: seq<Row>, ds: seq<PolicyDecision>) {
    |rows| == |ds| && forall i :: 0 <= i < |ds| ==> Holds(rows[i], ds[i])
  }

  lemma RowsAfterHold(p: Platform, iso: int -> string, lines: seq<Line<Row>>, ds: seq<PolicyDecision>,
                      stamps: nat -> Stamp)
    ensures RowsHold(RowsAfter(p, iso, lines, ds, stamps), ds)
  {
    var rows, qs := RowsAfter(p, iso, lines, ds, stamps), RequestsFor(iso, ds, stamps);
    forall i | 0 <= i < |ds| ensures Holds(rows[i], ds[i]) {
      RowsCarryPayloads(p, RowsOf(lines), qs, i);
      assert qs[i] == RequestFor(iso, ds[i], stamps(i));
      DecisionReadsBack(iso, ds[i], rows[i]);
    }
  }

  /** Behind any rows, the denials found are those found before and those recorded. */
  lemma DenialsReadBack(before: seq<Row>, rows: seq<Row>, ds: seq<PolicyDecision>)
    requires RowsHold(rows, ds)
    ensures DeniedRows(before + rows) == DeniedRows(before) + Denials(ds)
  {
    CountConcat(before, rows, IsDenied);
    forall i | 0 <= i < |ds| ensures IsDenied(rows[i]) <==> IsDenial(ds[i]) { assert Holds(rows[i], ds[i]); }
    CountAlike(rows, IsDenied, ds, IsDenial);
  }

  // ---- when the file can be read -------------------------------------------------------------

  /** None of U+0085, U+2028 and U+2029 in what came from outside. */
  ghost predicate CleanDecision(d: PolicyDecision) {
    && Plain(d.actor) && Plain(d.action) && Plain(d.target) && Plain(d.environment) && Plain(d.reason)
    && Plain(d.matchedRule)
  }

  /** Identifiers are UUIDs, times are ISO 8601. */
  ghost predicate PlainStamps(iso: int -> string, stamps: nat -> Stamp) {
    && (forall t :: Plain(iso(t)))
    && (forall i: nat :: Plain(stamps(i).eventId) && Plain(stamps(i).timestamp))
  }

  lemma {:induction false} ObjectMentions(keys: seq<string>, texts: seq<string>, c: char)
    requires |keys| == |texts| && (forall i :: 0 <= i < |keys| ==> c !in keys[i])
    requires forall i, k :: 0 <= i < k < |keys| ==> keys[i] != keys[k]
    ensures RowMentions(Object(keys, texts), c) <==> exists i :: 0 <= i < |texts| && c in texts[i]
  {
    if keys != [] {
      var n := |keys| - 1;
      ObjectMentions(keys[..n], texts[..n], c);
      ObjectHasOnly(keys[..n], texts[..n], keys[n]);
      MentionsAddedMember(Object(keys[..n], texts[..n]), keys[n], Text(texts[n]), c);
      if i :| 0 <= i < n && c in texts[i] { assert c in texts[..n][i]; }
    }
  }

  lemma KeysArePlain(i: nat)
    requires i < |KEYS|
    ensures Plain(KEYS[i])
  {
  }

  lemma PayloadIsCleanIff(iso: int -> string, d: PolicyDecision)
    requires Plain(iso(d.timestamp))
    ensures Clean(Payload(iso, d)) <==> CleanDecision(d)
  {
    var texts := Texts(iso, d);
    forall c | IsRawBreak(c)
      ensures RowMentions(Payload(iso, d), c) <==> exists i :: 0 <= i < |texts| && c in texts[i]
    {
      forall i | 0 <= i < |KEYS| ensures c !in KEYS[i] { KeysArePlain(i); PlainIff(KEYS[i]); }
      forall i, k | 0 <= i < k < |KEYS| ensures KEYS[i] != KEYS[k] { KeysAreDistinct(i, k); }
      ObjectMentions(KEYS, texts, c);
    }
    forall i | 0 <= i < |texts| ensures Plain(texts[i]) <==> forall c :: IsRawBreak(c) ==> c !in texts[i] {
      PlainIff(texts[i]);
    }
    TextsArePlainIff(iso, d);
  }

  lemma TextsArePlainIff(iso: int -> string, d: PolicyDecision)
    requires Plain(iso(d.timestamp))
    ensures (forall i :: 0 <= i < |Texts(iso, d)| ==> Plain(Texts(iso, d)[i])) <==> CleanDecision(d)
  {
    var texts := Texts(iso, d);
    NamesArePlain(d);
    assert texts[0] == DecisionText(d.decision) && texts[1] == d.actor && texts[2] == d.action && texts[3] == d.target;
    assert texts[4] == d.environment && texts[5] == PostureText(d.posture) && texts[6] == d.reason;
    assert texts[7] == d.matchedRule && texts[8] == iso(d.timestamp);
  }

  lemma NamesArePlain(d: PolicyDecision)
    ensures Plain(DecisionText(d.decision)) && Plain(PostureText(d.posture))
  {
  }

  lemma RecordingStaysReadableIff(p: Platform, iso: int -> string, lines: seq<Line<Row>>, ds: seq<PolicyDecision>,
                                  stamps: nat -> Stamp)
    requires PlainStamps(iso, stamps)
    ensures StaysReadable(p, lines, RequestsFor(iso, ds, stamps)) <==>
            && ReadableLog(p.codec, lines) && (ds != [] ==> Plain(TailOf(p.h, RowsOf(lines))))
            && forall i :: 0 <= i < |ds| ==> CleanDecision(ds[i])
  {
    var qs := RequestsFor(iso, ds, stamps);
    forall i | 0 <= i < |ds| ensures CleanRequest(qs[i]) <==> CleanDecision(ds[i]) { PayloadIsCleanIff(iso, ds[i]); }
  }

  /**
   Recording decisions and reading the file again. It can be read iff it could be read before and no
   actor, action, target, environment, reason or rule recorded holds U+0085, U+2028 or U+2029 - nor the
   hash the first of them links to, which this store never puts there. It then gives the old rows and
   behind them one that holds each decision; it verifies iff the old rows did; and the posture replay
   derives from it is the one that the denials found before and those recorded call for.
   */
  lemma FileReplaysDecisions(p: Platform, iso: int -> string, lines: seq<Line<Row>>, ds: seq<PolicyDecision>,
                             stamps: nat -> Stamp)
    requires p.Lawful() && WritesRaw(p.codec) && PlainDigests(p.h) && PlainStamps(iso, stamps)
    requires SoundLog(p.codec, lines)
    ensures var rows := RowsAfter(p, iso, lines, ds, stamps);
            var r := ReadBytes(p.codec, BytesOf(p.codec, LogAfter(p, iso, lines, ds, stamps)));
            && (r.Ok? <==>
                  && ReadableLog(p.codec, lines) && (ds != [] ==> Plain(TailOf(p.h, RowsOf(lines))))
                  && forall i :: 0 <= i < |ds| ==> CleanDecision(ds[i]))
            && (r.Ok? ==> r.value == RowsOf(lines) + rows)
            && RowsHold(rows, ds)
            && (Rows(p.h).Verified(RowsOf(lines) + rows) <==> Rows(p.h).Verified(RowsOf(lines)))
            && DeniedRows(RowsOf(lines) + rows) == DeniedRows(RowsOf(lines)) + Denials(ds)
  {
    var qs := RequestsFor(iso, ds, stamps);
    GrownReadsBackIff(p, lines, qs);
    RecordingStaysReadableIff(p, iso, lines, ds, stamps);
    AppendsKeepVerdict(p, RowsOf(lines), qs);
    RowsAfterHold(p, iso, lines, ds, stamps);
    DenialsReadBack(RowsOf(lines), RowsAfter(p, iso, lines, ds, stamps), ds);
  }

  /** One separator in one target is enough: after this append the log of a new directory cannot be read. */
  lemma LineSeparatorBreaksLog(p: Platform, iso: int -> string, stamp: Stamp, d: PolicyDecision)
    requires p.Lawful() && WritesRaw(p.codec) && PlainDigests(p.h)
    requires d == PolicyDecision(Deny, "agent", "http.request", "example.com/\U{2028}", "RIF_Runtime", Normal,
                                 "deny by default", "policy.deny_unknown_by_default", 0)
    requires Plain(iso(0)) && Plain(stamp.eventId) && Plain(stamp.timestamp)
    ensures var data := Appended(p, [], Dump(iso, d), stamp.eventId, stamp.timestamp);
            data.Ok? && ReadBytes(p.codec, data.value).Err?
  {
    DumpNormalizes(iso, d);
    assert d.target[12] == '\U{2028}';
    PayloadIsCleanIff(iso, d);
    AppendAddsOneRow(p, [], Dump(iso, d), stamp.eventId, stamp.timestamp);
    AppendReadsBackIff(p, [], Dump(iso, d), stamp.eventId, stamp.timestamp);
    assert BytesOf<Row>(p.codec, []) == [];
  }
}
