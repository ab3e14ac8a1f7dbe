/**
 The chain over decision rows and over in-memory audit records
 (src/rif_runtime/audit.py, src/rif_runtime/storage/jsonl.py).
 */
module AuditChain {
  import opened Wrappers
  import opened PythonValues
  import opened ChainTheory

  const CHAIN_KEY := "_chain"

  /** ``"0" * 64`` */
  const GENESIS_HASH: string := Repeat('0', 64)

  function Repeat(c: char, n: nat): string {
    if n == 0 then "" else [c] + Repeat(c, n - 1)
  }

  /** The four values the digest covers. */
  datatype AuditRecord = AuditRecord(eventId: string, timestamp: string, payload: Row, previousHash: string)

  /** The dictionary ``calculate_hash`` digests, in normal form. */
  function RecordJson(e: AuditRecord): Json {
    Obj(map["event_id" := Text(e.eventId), "timestamp" := Text(e.timestamp), "payload" := Obj(e.payload),
            "previous_hash" := Text(e.previousHash)])
  }

  /** Library functions the chain is built on: SHA-256 of a normal form's canonical text, and Python's ``str``. */
  datatype Hashing = Hashing(sha: Json -> string, str: Json -> string)
  {
    ghost predicate Lawful() {
      forall s: string :: str(Text(s)) == s
    }

    function Digest(e: AuditRecord): string {
      sha(RecordJson(e))
    }
  }

  /** ``calculate_hash`` on a Python payload: the digest of the normal form of the four values. */
  function CalculateHash(h: Hashing, eventId: string, timestamp: string, payload: Value, previousHash: string):
    Result<string, TypeError>
  {
    match NormalizeForJson(DictValue([Entry("event_id", StrValue(eventId)), Entry("timestamp", StrValue(timestamp)),
                                      Entry("payload", payload), Entry("previous_hash", StrValue(previousHash))]))
    case Ok(j) => Ok(h.sha(j))
    case Err(e) => Err(e)
  }

  /** Whatever object the payload is, only its normal form is hashed. */
  lemma HashIsOfNormalForm(h: Hashing, e: AuditRecord, payload: Value)
    requires NormalizeForJson(payload) == Ok(Obj(e.payload))
    ensures CalculateHash(h, e.eventId, e.timestamp, payload, e.previousHash) == Ok(h.Digest(e))
  {
    var a, b, c, d := Entry("event_id", StrValue(e.eventId)), Entry("timestamp", StrValue(e.timestamp)),
                      Entry("payload", payload), Entry("previous_hash", StrValue(e.previousHash));
    assert [a, b, c, d][..3] == [a, b, c] && [a, b, c][..2] == [a, b] && [a, b][..1] == [a] && [a][..0] == [];
    assert NormalizeEntries([a]) == Ok(map[a.key := Text(e.eventId)]);
    assert NormalizeEntries([a, b]) == Ok(map[a.key := Text(e.eventId), b.key := Text(e.timestamp)]);
    assert NormalizeEntries([a, b, c]) ==
           Ok(map[a.key := Text(e.eventId), b.key := Text(e.timestamp), c.key := Obj(e.payload)]);
    assert NormalizeEntries([a, b, c, d]) == Ok(RecordJson(e).fields);
  }

  // ---- persisted rows ------------------------------------------------------------------------

  predicate Chained(row: Row) {
    CHAIN_KEY in row && row[CHAIN_KEY].Obj?
  }

  /** ``str(chain.get(key, default))`` */
  function TextAt(h: Hashing, chain: Row, key: string, default: string): string {
    if key in chain then h.str(chain[key]) else default
  }

  function StringAt(chain: Row, key: string): Option<string> {
    if key in chain && chain[key].Text? then Some(chain[key].chars) else None
  }

  /** What ``verify`` and the tail read take from a row. */
  function LinkOf(h: Hashing, row: Row): Link<AuditRecord, string> {
    if !Chained(row) then Legacy else
    var chain := row[CHAIN_KEY].fields;
    Linked(AuditRecord(TextAt(h, chain, "event_id", ""), TextAt(h, chain, "timestamp", ""),
                       row - {CHAIN_KEY}, TextAt(h, chain, "previous_hash", "")),
           StringAt(chain, "previous_hash"), StringAt(chain, "current_hash"),
           TextAt(h, chain, "current_hash", GENESIS_HASH))
  }

  function Rows(h: Hashing): Scheme<Row, AuditRecord, string> {
    Scheme(row => LinkOf(h, row), h.Digest, (e: AuditRecord) => e.previousHash, GENESIS_HASH)
  }

  /** The value no row links to but the first: 64 zeros. */
  lemma GenesisIsZeros()
    ensures |GENESIS_HASH| == 64 && forall i :: 0 <= i < 64 ==> GENESIS_HASH[i] == '0'
  {
    RepeatIs('0', 64);
  }

  lemma {:induction false} RepeatIs(c: char, n: nat)
    ensures |Repeat(c, n)| == n && forall i :: 0 <= i < n ==> Repeat(c, n)[i] == c
  {
    if n > 0 { RepeatIs(c, n - 1); }
  }

  /** What a row hands on to its successor: its own hash as text, or genesis if it is legacy or states none. */
  lemma HandsOn(h: Hashing, row: Row)
    ensures Rows(h).HashOf(row) ==
            if Chained(row) && "current_hash" in row[CHAIN_KEY].fields
            then h.str(row[CHAIN_KEY].fields["current_hash"]) else GENESIS_HASH
  {
  }

  lemma RowsAreCoherent(h: Hashing)
    requires h.Lawful()
    ensures Rows(h).Coherent()
  {
    forall row: Row ensures var l := LinkOf(h, row); l.Linked? ==>
      && (l.previous.Some? ==> l.record.previousHash == l.previous.value)
      && (l.current.Some? ==> l.hash == l.current.value)
    {}
  }

  /** The hash a row appended to ``rows`` must link to. */
  function TailOf(h: Hashing, rows: seq<Row>): string {
    Rows(h).Before(rows, |rows|)
  }

  function Envelope(e: AuditRecord, currentHash: string): Row {
    map["event_id" := Text(e.eventId), "timestamp" := Text(e.timestamp),
        "previous_hash" := Text(e.previousHash), "current_hash" := Text(currentHash)]
  }

  function SealedRow(e: AuditRecord, currentHash: string): Row {
    e.payload[CHAIN_KEY := Obj(Envelope(e, currentHash))]
  }

  /** What is read back from a written row is what was hashed. */
  lemma SealedRowReadsBack(h: Hashing, e: AuditRecord, currentHash: string)
    requires h.Lawful() && CHAIN_KEY !in e.payload
    ensures LinkOf(h, SealedRow(e, currentHash)) ==
            Linked(e, Some(e.previousHash), Some(currentHash), currentHash)
  {
    assert SealedRow(e, currentHash) - {CHAIN_KEY} == e.payload;
  }

  /** An appended row keeps a log verified exactly when it links to that log's tail and is hashed right. */
  lemma AppendedRowVerifiesIff(h: Hashing, rows: seq<Row>, e: AuditRecord, currentHash: string)
    requires h.Lawful() && CHAIN_KEY !in e.payload
    ensures Rows(h).Verified(rows + [SealedRow(e, currentHash)]) <==>
            Rows(h).Verified(rows) && e.previousHash == TailOf(h, rows) && currentHash == h.Digest(e)
    ensures TailOf(h, rows + [SealedRow(e, currentHash)]) == currentHash
  {
    SealedRowReadsBack(h, e, currentHash);
    AppendVerifiesIff(Rows(h), rows, SealedRow(e, currentHash));
  }

  /**
   The stored form rehashes: from whatever dictionary a row is loaded as, in any key order, ``verify``
   recomputes the digest that is compared here.
   */
  lemma LoadedRowRehashes(h: Hashing, row: Row, loaded: seq<Entry>)
    requires Chained(row) && Represents(DictValue(loaded), Obj(row))
    ensures var record := LinkOf(h, row).record;
            CalculateHash(h, record.eventId, record.timestamp, DictValue(WithoutKey(loaded, CHAIN_KEY)),
                          record.previousHash) == Ok(h.Digest(record))
  {
    WithoutKeyRepresents(loaded, row, CHAIN_KEY);
    NormalFormIsFixed(DictValue(WithoutKey(loaded, CHAIN_KEY)), Obj(row - {CHAIN_KEY}));
    HashIsOfNormalForm(h, LinkOf(h, row).record, DictValue(WithoutKey(loaded, CHAIN_KEY)));
  }

  /**
   The round trip of the digest: the hash of a record as it was handed in - datetimes, tuples and all
   - is the hash verification recomputes from the row it was stored as.
   */
  lemma WrittenHashIsRecomputed(h: Hashing, record: seq<Entry>, e: AuditRecord, loaded: seq<Entry>)
    requires h.Lawful() && NormalizeEntries(record) == Ok(e.payload) && CHAIN_KEY !in e.payload
    requires Represents(DictValue(loaded), Obj(SealedRow(e, h.Digest(e))))
    ensures CalculateHash(h, e.eventId, e.timestamp, DictValue(record), e.previousHash) ==
            CalculateHash(h, e.eventId, e.timestamp, DictValue(WithoutKey(loaded, CHAIN_KEY)), e.previousHash)
    ensures CalculateHash(h, e.eventId, e.timestamp, DictValue(record), e.previousHash) ==
            Ok(LinkOf(h, SealedRow(e, h.Digest(e))).hash)
  {
    SealedRowReadsBack(h, e, h.Digest(e));
    LoadedRowRehashes(h, SealedRow(e, h.Digest(e)), loaded);
    HashIsOfNormalForm(h, e, DictValue(record));
  }

  // ---- what the stored form pins down --------------------------------------------------------

  /** The envelope an append writes: exactly four strings. */
  predicate Enveloped(row: Row) {
    && Chained(row)
    && row[CHAIN_KEY].fields.Keys == {"event_id", "timestamp", "previous_hash", "current_hash"}
    && forall key :: key in row[CHAIN_KEY].fields ==> row[CHAIN_KEY].fields[key].Text?
  }

  lemma EnvelopeHoldsText(h: Hashing, chain: Row, key: string, default: string)
    requires h.Lawful() && key in chain && chain[key].Text?
    ensures chain[key] == Text(TextAt(h, chain, key, default))
  {
  }

  /** Verification overlooks nothing of such a row. */
  lemma EnvelopedRowIsItsLink(h: Hashing, a: Row, b: Row)
    requires h.Lawful() && Enveloped(a) && Enveloped(b) && LinkOf(h, a) == LinkOf(h, b)
    ensures a == b
  {
    var x, y := a[CHAIN_KEY].fields, b[CHAIN_KEY].fields;
    forall key | key in x ensures x[key] == y[key] {
      EnvelopeHoldsText(h, x, key, if key == "current_hash" then GENESIS_HASH else "");
      EnvelopeHoldsText(h, y, key, if key == "current_hash" then GENESIS_HASH else "");
    }
    assert x == y;
    assert a == (a - {CHAIN_KEY})[CHAIN_KEY := a[CHAIN_KEY]];
    assert b == (b - {CHAIN_KEY})[CHAIN_KEY := b[CHAIN_KEY]];
  }

  ghost predicate EnvelopedLog(rows: seq<Row>) {
    forall i :: 0 <= i < |rows| ==> Enveloped(rows[i])
  }

  // ---- what the digest covers ----------------------------------------------------------------

  /** All four values of a record can be told from the dictionary that is hashed. */
  lemma RecordJsonIsInjective(x: AuditRecord, y: AuditRecord)
    requires RecordJson(x) == RecordJson(y)
    ensures x == y
  {
    var a, b := RecordJson(x).fields, RecordJson(y).fields;
    assert a["event_id"] == b["event_id"] && a["timestamp"] == b["timestamp"];
    assert a["payload"] == b["payload"] && a["previous_hash"] == b["previous_hash"];
  }

  /** What is hashed for the chained rows of a log. */
  ghost function Hashed(h: Hashing, rows: seq<Row>): set<Json> {
    set i | 0 <= i < |rows| && Chained(rows[i]) :: RecordJson(LinkOf(h, rows[i]).record)
  }

  /** The only cryptographic assumption: SHA-256 does not collide on these values, nor give the genesis value. */
  ghost predicate NoCollision(h: Hashing, values: set<Json>) {
    && (forall x, y :: x in values && y in values && h.sha(x) == h.sha(y) ==> x == y)
    && (forall x :: x in values ==> h.sha(x) != GENESIS_HASH)
  }

  lemma RecordIsHashed(h: Hashing, rows: seq<Row>, e: AuditRecord)
    requires e in Rows(h).Records(rows)
    ensures RecordJson(e) in Hashed(h, rows)
  {
    var i :| 0 <= i < |rows| && Rows(h).read(rows[i]).Linked? && Rows(h).read(rows[i]).record == e;
    assert Chained(rows[i]) && RecordJson(LinkOf(h, rows[i]).record) in Hashed(h, rows);
  }

  /** So digests do not collide on the records either: the digest covers everything a record says. */
  lemma DigestCoversRecords(h: Hashing, a: seq<Row>, b: seq<Row>)
    requires NoCollision(h, Hashed(h, a) + Hashed(h, b))
    ensures Rows(h).CollisionFree(Rows(h).Records(a) + Rows(h).Records(b))
  {
    var records := Rows(h).Records(a) + Rows(h).Records(b);
    forall x | x in records ensures RecordJson(x) in Hashed(h, a) + Hashed(h, b) {
      if x in Rows(h).Records(a) { RecordIsHashed(h, a, x); } else { RecordIsHashed(h, b, x); }
    }
    forall x, y | x in records && y in records && h.Digest(x) == h.Digest(y) ensures x == y {
      RecordJsonIsInjective(x, y);
    }
  }

  /** Two verified logs of written rows, of whatever lengths, with the same last hash are the same log. */
  lemma SameTailSameLog(h: Hashing, a: seq<Row>, b: seq<Row>)
    requires h.Lawful() && EnvelopedLog(a) && EnvelopedLog(b)
    requires Rows(h).Verified(a) && Rows(h).Verified(b) && NoCollision(h, Hashed(h, a) + Hashed(h, b))
    requires TailOf(h, a) == TailOf(h, b)
    ensures a == b
  {
    RowsAreCoherent(h);
    DigestCoversRecords(h, a, b);
    TailDeterminesLog(Rows(h), a, b);
    forall i | 0 <= i < |a| ensures a[i] == b[i] {
      assert Rows(h).read(a[i]) == Rows(h).read(b[i]);
      EnvelopedRowIsItsLink(h, a[i], b[i]);
    }
  }

  lemma EditedRowReads(h: Hashing, row: Row, payload: Row)
    requires Chained(row) && CHAIN_KEY !in payload && payload != row - {CHAIN_KEY}
    ensures var was, now := LinkOf(h, row), LinkOf(h, payload[CHAIN_KEY := row[CHAIN_KEY]]);
            now.Linked? && now.current == was.current && now.record != was.record
  {
    assert payload[CHAIN_KEY := row[CHAIN_KEY]] - {CHAIN_KEY} == payload;
  }

  /** Changing what a row says and leaving its envelope alone is reported at that very row, the last one too. */
  lemma PayloadEditIsLocated(h: Hashing, rows: seq<Row>, i: nat, payload: Row, v: ChainVerification)
    requires h.Lawful() && Rows(h).Verified(rows) && i < |rows| && Chained(rows[i]) && CHAIN_KEY !in payload
    requires payload != rows[i] - {CHAIN_KEY}
    requires var edited := payload[CHAIN_KEY := rows[i][CHAIN_KEY]];
             && NoCollision(h, Hashed(h, rows) + Hashed(h, [edited]))
             && Rows(h).Reports(rows[i := edited], v)
    ensures v.brokenAt == Some(i)
  {
    var edited := payload[CHAIN_KEY := rows[i][CHAIN_KEY]];
    RowsAreCoherent(h);
    DigestCoversRecords(h, rows, [edited]);
    EditedRowReads(h, rows[i], payload);
    EditUnderHashIsLocated(Rows(h), rows, i, edited, v);
  }

  /**
   Replacing a written row by any other written row, re-hashed or not: short of the end of the log it is
   reported, there or at the next row. The last row can be replaced by one that links and is hashed right.
   */
  lemma RowEditIsLocated(h: Hashing, rows: seq<Row>, i: nat, row: Row, v: ChainVerification)
    requires h.Lawful() && Rows(h).Verified(rows) && i < |rows| && Enveloped(rows[i]) && Enveloped(row)
    requires row != rows[i] && NoCollision(h, Hashed(h, rows) + Hashed(h, [row]))
    requires Rows(h).Reports(rows[i := row], v)
    ensures v.brokenAt == if Rows(h).InPlace(rows[i := row], i) then (if i + 1 < |rows| then Some(i + 1) else None)
                          else Some(i)
  {
    RowsAreCoherent(h);
    DigestCoversRecords(h, rows, [row]);
    EditIsLocated(Rows(h), rows, i, row, v);
    if LinkOf(h, row) == LinkOf(h, rows[i]) { EnvelopedRowIsItsLink(h, row, rows[i]); }
  }

  /** Deleting, repeating, inserting or reordering the chained rows behind legacy ones: only truncations pass. */
  lemma RowRearrangementIsLocated(h: Hashing, legacy: seq<Row>, a: seq<Row>, b: seq<Row>, v: ChainVerification)
    requires h.Lawful() && Rows(h).Unchained(legacy) && Rows(h).FullyChained(a) && Rows(h).Verified(a)
    requires NoCollision(h, Hashed(h, a)) && forall i :: 0 <= i < |b| ==> b[i] in a
    requires Rows(h).Reports(legacy + b, v)
    ensures v.verified <==> b <= a
    ensures !v.verified ==>
      var n := v.brokenAt.value - |legacy|;
      0 <= n < |b| && b[..n] <= a && !(b[..n + 1] <= a)
  {
    RowsAreCoherent(h);
    assert Hashed(h, a) + Hashed(h, a) == Hashed(h, a);
    DigestCoversRecords(h, a, a);
    assert Rows(h).Records(a) + Rows(h).Records(a) == Rows(h).Records(a);
    RearrangementIsLocated(Rows(h), legacy, a, b, v);
  }

  /** A deletion is reported at its place, unless it was of the last row. */
  lemma RowDeletionIsLocated(h: Hashing, legacy: seq<Row>, a: seq<Row>, i: nat, v: ChainVerification)
    requires h.Lawful() && Rows(h).Unchained(legacy) && Rows(h).FullyChained(a) && Rows(h).Verified(a)
    requires NoCollision(h, Hashed(h, a)) && i < |a| && Rows(h).Reports(legacy + (a[..i] + a[i + 1..]), v)
    ensures v.brokenAt == if i == |a| - 1 then None else Some(|legacy| + i)
  {
    RowsAreCoherent(h);
    assert Hashed(h, a) + Hashed(h, a) == Hashed(h, a);
    DigestCoversRecords(h, a, a);
    assert Rows(h).Records(a) + Rows(h).Records(a) == Rows(h).Records(a);
    DeletionIsLocated(Rows(h), legacy, a, i, v);
  }

  /** A swap is reported at the earlier place. */
  lemma RowSwapIsLocated(h: Hashing, legacy: seq<Row>, a: seq<Row>, i: nat, k: nat, v: ChainVerification)
    requires h.Lawful() && Rows(h).Unchained(legacy) && Rows(h).FullyChained(a) && Rows(h).Verified(a)
    requires NoCollision(h, Hashed(h, a)) && i < k < |a| && Rows(h).Reports(legacy + a[i := a[k]][k := a[i]], v)
    ensures v.brokenAt == Some(|legacy| + i)
  {
    RowsAreCoherent(h);
    assert Hashed(h, a) + Hashed(h, a) == Hashed(h, a);
    DigestCoversRecords(h, a, a);
    assert Rows(h).Records(a) + Rows(h).Records(a) == Rows(h).Records(a);
    SwapIsLocated(Rows(h), legacy, a, i, k, v);
  }

  // ---- in-memory records ---------------------------------------------------------------------

  /** An ``AuditRecord`` with its stored hash. */
  datatype Sealed = Sealed(record: AuditRecord, currentHash: string)

  function Memory(h: Hashing): Scheme<Sealed, AuditRecord, string> {
    Scheme((x: Sealed) => Linked(x.record, Some(x.record.previousHash), Some(x.currentHash), x.currentHash),
           h.Digest, (e: AuditRecord) => e.previousHash, GENESIS_HASH)
  }

  method VerifyChain(h: Hashing, chain: seq<Sealed>) returns (ok: bool)
    ensures ok <==> Memory(h).Verified(chain)
  {
    var s := Memory(h);
    var previousHash := s.genesis;
    for i := 0 to |chain|
      invariant previousHash == s.Before(chain, i) && s.InOrder(chain, i)
    {
      var x := chain[i];
      if x.record.previousHash != previousHash {
        assert !s.InPlace(chain, i);
        return false;
      }
      if x.currentHash != h.Digest(x.record) {
        assert !s.InPlace(chain, i);
        return false;
      }
      previousHash := x.currentHash;
    }
    return true;
  }

  /** ``append_record``: the record that follows a chain, with its hash. */
  function NextSealed(h: Hashing, chain: seq<Sealed>, eventId: string, timestamp: string, payload: Row): Sealed {
    var previousHash := if chain == [] then GENESIS_HASH else chain[|chain| - 1].currentHash;
    var record := AuditRecord(eventId, timestamp, payload, previousHash);
    Sealed(record, h.Digest(record))
  }

  /** Putting it at the end keeps a chain valid, and cannot make a broken one valid. */
  lemma NextSealedKeepsVerdict(h: Hashing, chain: seq<Sealed>, eventId: string, timestamp: string, payload: Row)
    ensures Memory(h).Verified(chain + [NextSealed(h, chain, eventId, timestamp, payload)]) <==>
            Memory(h).Verified(chain)
  {
    AppendVerifiesIff(Memory(h), chain, NextSealed(h, chain, eventId, timestamp, payload));
  }

  function SealedRows(chain: seq<Sealed>): seq<Row> {
    seq(|chain|, i requires 0 <= i < |chain| => SealedRow(chain[i].record, chain[i].currentHash))
  }

  /** The persisted form and the in-memory form of a chain get the same verdict. */
  lemma PersistedChainAgrees(h: Hashing, chain: seq<Sealed>)
    requires h.Lawful() && forall i :: 0 <= i < |chain| ==> CHAIN_KEY !in chain[i].record.payload
    ensures Rows(h).Verified(SealedRows(chain)) <==> Memory(h).Verified(chain)
  {
    var r, m, rows := Rows(h), Memory(h), SealedRows(chain);
    forall i | 0 <= i < |chain| ensures r.read(rows[i]) == m.read(chain[i]) {
      SealedRowReadsBack(h, chain[i].record, chain[i].currentHash);
    }
    SameReadingSameVerdict(r, rows, m, chain);
  }
}
