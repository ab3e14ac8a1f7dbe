/** The hash-chained store: append, read back, verify (src/rif_runtime/storage/jsonl.py). */
module ChainedStore {
  import opened Wrappers
  import opened PythonValues
  import opened Utf8
  import opened Lines
  import opened LogFile
  import opened ChainTheory
  import opened AuditChain

  datatype Platform = Platform(h: Hashing, codec: Codec<Row>)
  {
    ghost predicate Lawful() {
      h.Lawful() && codec.Lawful()
    }
  }

  datatype StoreError = Unsupported(cause: TypeError) | ReservedKey | Damaged | Unreadable(reason: FileError)

  /** The hash the next row must link to, as the bytes of the file determine it. */
  function TailHashOf(p: Platform, data: seq<Byte>): Result<string, StoreError> {
    match LastRow(p.codec, NaiveTail(data))
    case Err(_) => Err(Damaged)
    case Ok(None) => Ok(GENESIS_HASH)
    case Ok(Some(row)) => Ok(Rows(p.h).HashOf(row))
  }

  function NewRecord(payload: Row, eventId: string, timestamp: string, previousHash: string): AuditRecord {
    AuditRecord(eventId, timestamp, payload, previousHash)
  }

  function NewRow(p: Platform, e: AuditRecord): Row {
    SealedRow(e, p.h.Digest(e))
  }

  function LineBytes(p: Platform, row: Row): seq<Byte> {
    Encode(p.codec.dumps(row) + ['\n'])
  }

  /** What one append does to the bytes of the file. */
  function Appended(p: Platform, data: seq<Byte>, record: seq<Entry>, eventId: string, timestamp: string):
    Result<seq<Byte>, StoreError>
  {
    match NormalizeEntries(record)
    case Err(e) => Err(Unsupported(e))
    case Ok(payload) =>
      if CHAIN_KEY in payload then Err(ReservedKey) else
      match TailHashOf(p, data)
      case Err(e) => Err(e)
      case Ok(previousHash) => Ok(data + LineBytes(p, NewRow(p, NewRecord(payload, eventId, timestamp, previousHash))))
  }

  class HashChainedJsonlStore {
    const p: Platform
    var file: seq<Byte>

    const TAIL_WINDOW := 65536

    constructor (p: Platform, file: seq<Byte>)
      ensures this.p == p && this.file == file
    {
      this.p := p;
      this.file := file;
    }

    method TailHash() returns (r: Result<string, StoreError>)
      ensures r == TailHashOf(p, file)
    {
      var last := FindTail(file, TAIL_WINDOW);
      if last.None? { return Ok(GENESIS_HASH); }
      var text := Decode(last.value);
      if text.None? { return Err(Damaged); }
      var row := p.codec.loads(text.value);
      if row.None? { return Err(Damaged); }
      return Ok(Rows(p.h).HashOf(row.value));
    }

    /** Rejected records and damaged logs leave the file as it was; everything else adds one line. */
    method Append(record: seq<Entry>, eventId: string, timestamp: string) returns (r: Result<(), StoreError>)
      modifies this
      ensures match Appended(p, old(file), record, eventId, timestamp)
              case Ok(data) => r == Ok(()) && file == data
              case Err(e) => r == Err(e) && file == old(file)
    {
      var payload := NormalizeEntries(record);
      if payload.Err? { return Err(Unsupported(payload.error)); }
      if CHAIN_KEY in payload.value { return Err(ReservedKey); }
      var previousHash := TailHash();
      if previousHash.Err? { return Err(previousHash.error); }
      var entry := NewRecord(payload.value, eventId, timestamp, previousHash.value);
      file := file + LineBytes(p, NewRow(p, entry));
      return Ok(());
    }

    method ReadAll() returns (r: Result<seq<Row>, StoreError>)
      ensures r == match ReadBytes(p.codec, file) case Ok(rows) => Ok(rows) case Err(e) => Err(Unreadable(e))
    {
      var text := Decode(file);
      if text.None? { return Err(Unreadable(BadEncoding)); }
      match ReadText(p.codec, text.value) {
        case Ok(rows) => return Ok(rows);
        case Err(e) => return Err(Unreadable(e));
      }
    }

    method Verify() returns (r: Result<ChainVerification, StoreError>)
      ensures r.Ok? <==> ReadBytes(p.codec, file).Ok?
      ensures r.Ok? ==> Rows(p.h).Reports(ReadBytes(p.codec, file).value, r.value)
    {
      var rows := ReadAll();
      if rows.Err? { return Err(rows.error); }
      var v := VerifyRows(Rows(p.h), rows.value);
      return Ok(v);
    }
  }

  // ---- the round trip ------------------------------------------------------------------------

  /** On a sound log the byte-level tail hash is the tail of the rows a reader sees. */
  lemma TailHashAgrees(p: Platform, lines: seq<Line<Row>>)
    requires p.Lawful() && SoundLog(p.codec, lines)
    ensures TailHashOf(p, BytesOf(p.codec, lines)) == Ok(TailOf(p.h, RowsOf(lines)))
  {
    TailAgreesWithReader(p.codec, lines);
  }

  ghost predicate Acceptable(record: seq<Entry>) {
    NormalizeEntries(record).Ok? && CHAIN_KEY !in NormalizeEntries(record).value
  }

  ghost function AppendedRow(p: Platform, lines: seq<Line<Row>>, record: seq<Entry>, eventId: string,
                             timestamp: string): Row
    requires Acceptable(record)
  {
    NewRow(p, NewRecord(NormalizeEntries(record).value, eventId, timestamp, TailOf(p.h, RowsOf(lines))))
  }

  /**
   Appending to a sound log succeeds exactly for records that normalise and do not use the reserved
   key. The log stays sound and gains one row: the normalised payload with its envelope.
   */
  lemma AppendAddsOneRow(p: Platform, lines: seq<Line<Row>>, record: seq<Entry>, eventId: string, timestamp: string)
    requires p.Lawful() && SoundLog(p.codec, lines)
    ensures var data := Appended(p, BytesOf(p.codec, lines), record, eventId, timestamp);
            && (data.Ok? <==> Acceptable(record))
            && (data.Ok? ==>
                  var row := AppendedRow(p, lines, record, eventId, timestamp);
                  && data.value == BytesOf(p.codec, lines + [Written(row)])
                  && SoundLog(p.codec, lines + [Written(row)])
                  && RowsOf(lines + [Written(row)]) == RowsOf(lines) + [row]
                  && row - {CHAIN_KEY} == NormalizeEntries(record).value)
  {
    TailHashAgrees(p, lines);
    if Acceptable(record) {
      var e := NewRecord(NormalizeEntries(record).value, eventId, timestamp, TailOf(p.h, RowsOf(lines)));
      AppendLine(p.codec, lines, Written(NewRow(p, e)));
      SealedRowReadsBack(p.h, e, p.h.Digest(e));
      assert NewRow(p, e) - {CHAIN_KEY} == e.payload;
    }
  }

  /** The envelope of an appended row says, under their names, what it was given, linked to and hashed as. */
  lemma AppendedEnvelope(p: Platform, lines: seq<Line<Row>>, record: seq<Entry>, eventId: string, timestamp: string)
    requires Acceptable(record)
    ensures var row := AppendedRow(p, lines, record, eventId, timestamp);
            && Enveloped(row)
            && var chain, previousHash := row[CHAIN_KEY].fields, TailOf(p.h, RowsOf(lines));
               && chain["event_id"] == Text(eventId) && chain["timestamp"] == Text(timestamp)
               && chain["previous_hash"] == Text(previousHash)
               && var hash := CalculateHash(p.h, eventId, timestamp, DictValue(record), previousHash);
                  hash.Ok? && chain["current_hash"] == Text(hash.value)
  {
    var e := NewRecord(NormalizeEntries(record).value, eventId, timestamp, TailOf(p.h, RowsOf(lines)));
    HashIsOfNormalForm(p.h, e, DictValue(record));
    SealedRowIsEnveloped(e, p.h.Digest(e));
  }

  lemma SealedRowIsEnveloped(e: AuditRecord, currentHash: string)
    ensures Enveloped(SealedRow(e, currentHash))
  {
    assert Envelope(e, currentHash).Keys == {"event_id", "timestamp", "previous_hash", "current_hash"};
  }

  /**
   What an append does to any file, sound or not, as its last record decides: a blank file starts a chain,
   and a last record that does not decode or parse - a torn write - makes the append raise and leaves the
   file as it was.
   */
  lemma LastRecordDecides(p: Platform, data: seq<Byte>, record: seq<Entry>, eventId: string, timestamp: string,
                          at: nat, end: nat)
    requires Acceptable(record)
    ensures BlankBytes(data) ==> TailHashOf(p, data) == Ok(GENESIS_HASH)
    ensures IsLastRecord(data, at, end) ==>
      var text := Decode(data[at..end]);
      var damaged := text == None || p.codec.loads(text.value) == None;
      && (damaged <==> Appended(p, data, record, eventId, timestamp) == Err(Damaged))
      && (damaged <==> Appended(p, data, record, eventId, timestamp).Err?)
      && (!damaged ==> TailHashOf(p, data) == Ok(Rows(p.h).HashOf(p.codec.loads(text.value).value)))
  {
    var a, e := TailIsLastRecord(data);
    if IsLastRecord(data, at, end) {
      var i :| at <= i < end && !IsAsciiSpace(data[i]);
      assert !BlankBytes(data);
      LastRecordIsUnique(data, at, end, a, e);
    }
  }

  /** The append keeps the verdict: a verified log gains one chained row, a broken one breaks where it did. */
  lemma AppendKeepsVerdict(p: Platform, lines: seq<Line<Row>>, record: seq<Entry>, eventId: string, timestamp: string,
                           v: ChainVerification, w: ChainVerification)
    requires p.Lawful() && Acceptable(record)
    requires Rows(p.h).Reports(RowsOf(lines), v)
    requires Rows(p.h).Reports(RowsOf(lines) + [AppendedRow(p, lines, record, eventId, timestamp)], w)
    ensures w == if v.verified then v.(chainedRows := v.chainedRows + 1) else v
  {
    var s, rows := Rows(p.h), RowsOf(lines);
    var e := NewRecord(NormalizeEntries(record).value, eventId, timestamp, TailOf(p.h, rows));
    SealedRowReadsBack(p.h, e, p.h.Digest(e));
    ReportAfterAppend(s, rows, NewRow(p, e), v, w);
  }

  lemma ReportAfterAppend<T(!new), R(!new), H(!new)>(
      s: Scheme<T, R, H>, rows: seq<T>, row: T, v: ChainVerification, w: ChainVerification)
    requires s.Fits(row, s.Before(rows, |rows|)) && s.Reports(rows, v) && s.Reports(rows + [row], w)
    ensures w == if v.verified then v.(chainedRows := v.chainedRows + 1) else v
  {
    var more := rows + [row];
    var expected := if v.verified then v.(chainedRows := v.chainedRows + 1) else v;
    assert forall i :: 0 <= i < |rows| ==> more[i] == rows[i];
    forall i | 0 <= i < |rows| ensures s.InPlace(more, i) == s.InPlace(rows, i) {}
    assert s.InPlace(more, |rows|);
    assert s.Reports(more, expected);
    ReportIsUnique(s, more, w, expected);
  }

  // ---- when the round trip fails -------------------------------------------------------------

  ghost predicate Mentions(j: Json, c: char)
    decreases j
  {
    match j
    case Text(chars) => c in chars
    case Arr(items) => exists i :: 0 <= i < |items| && Mentions(items[i], c)
    case Obj(fields) => exists k :: k in fields && (c in k || Mentions(fields[k], c))
    case _ => false
  }

  ghost predicate RowMentions(row: Row, c: char) {
    exists k :: k in row && (c in k || Mentions(row[k], c))
  }

  /** ``ensure_ascii=False`` writes these characters as they are, and invents none. */
  ghost predicate WritesRaw(codec: Codec<Row>) {
    forall row, c :: IsRawBreak(c) ==> (c in codec.dumps(row) <==> RowMentions(row, c))
  }

  /** None of the three characters. */
  ghost predicate Plain(s: string) {
    forall i :: 0 <= i < |s| ==> !IsRawBreak(s[i])
  }

  /** None of them in any key or string of the row. */
  ghost predicate Clean(row: Row) {
    forall c :: IsRawBreak(c) ==> !RowMentions(row, c)
  }

  /** A digest is written in hexadecimal. */
  ghost predicate PlainDigests(h: Hashing) {
    forall e :: Plain(h.Digest(e))
  }

  lemma UnbrokenIffClean(p: Platform, row: Row)
    requires p.Lawful() && WritesRaw(p.codec)
    ensures Unbroken(p.codec.dumps(row), IsLineBreak) <==> Clean(row)
  {
    var s := p.codec.dumps(row);
    if Unbroken(s, IsLineBreak) {
      forall c | IsRawBreak(c) ensures !RowMentions(row, c) {
        assert c !in s;
      }
    } else {
      var i :| 0 <= i < |s| && IsLineBreak(s[i]);
      assert IsRawBreak(s[i]) && s[i] in s;
    }
  }

  lemma MentionsAddedMember(row: Row, key: string, j: Json, c: char)
    requires key !in row
    ensures RowMentions(row[key := j], c) <==> RowMentions(row, c) || c in key || Mentions(j, c)
  {
    var more := row[key := j];
    assert more[key] == j && forall k :: k in row ==> more[k] == row[k];
    if k :| k in more && (c in k || Mentions(more[k], c)) && k != key {
      assert k in row;
    }
    if k :| k in row && (c in k || Mentions(row[k], c)) {
      assert k in more;
    }
  }

  lemma FourMembersMention(k1: string, t1: string, k2: string, t2: string, k3: string, t3: string,
                           k4: string, t4: string, c: char)
    requires k1 != k2 && k1 != k3 && k1 != k4 && k2 != k3 && k2 != k4 && k3 != k4
    requires c !in k1 && c !in k2 && c !in k3 && c !in k4
    ensures RowMentions(map[k1 := Text(t1), k2 := Text(t2), k3 := Text(t3), k4 := Text(t4)], c) <==>
            c in t1 || c in t2 || c in t3 || c in t4
  {
    var a: Row := map[k1 := Text(t1)];
    var b := a[k2 := Text(t2)];
    var d := b[k3 := Text(t3)];
    OnlyMember(k1, t1, c);
    MentionsAddedMember(a, k2, Text(t2), c);
    MentionsAddedMember(b, k3, Text(t3), c);
    MentionsAddedMember(d, k4, Text(t4), c);
    assert d[k4 := Text(t4)] == map[k1 := Text(t1), k2 := Text(t2), k3 := Text(t3), k4 := Text(t4)];
  }

  lemma EnvelopeKeys(c: char)
    requires IsRawBreak(c)
    ensures c !in "event_id" && c !in "timestamp" && c !in "previous_hash" && c !in "current_hash"
    ensures "event_id" != "timestamp" && "event_id" != "previous_hash" && "event_id" != "current_hash"
    ensures "timestamp" != "previous_hash" && "timestamp" != "current_hash" && "previous_hash" != "current_hash"
  {
    assert |"event_id"| == 8 && |"timestamp"| == 9 && |"previous_hash"| == 13 && |"current_hash"| == 12;
  }

  lemma EnvelopeMentions(e: AuditRecord, currentHash: string, c: char)
    requires IsRawBreak(c)
    ensures RowMentions(Envelope(e, currentHash), c) <==>
            c in e.eventId || c in e.timestamp || c in e.previousHash || c in currentHash
  {
    EnvelopeKeys(c);
    FourMembersMention("event_id", e.eventId, "timestamp", e.timestamp, "previous_hash", e.previousHash,
                       "current_hash", currentHash, c);
  }

  lemma OnlyMember(key: string, text: string, c: char)
    ensures RowMentions(map[key := Text(text)], c) <==> c in key || c in text
  {
    var row: Row := map[key := Text(text)];
    assert key in row && row[key] == Text(text);
  }

  lemma PlainIff(s: string)
    ensures Plain(s) <==> forall c :: IsRawBreak(c) ==> c !in s
  {
    forall i | 0 <= i < |s| ensures s[i] in s {}
  }

  /** A stored row is clean iff its payload is and the three characters are in none of the other values. */
  lemma SealedRowIsCleanIff(h: Hashing, e: AuditRecord)
    requires PlainDigests(h) && CHAIN_KEY !in e.payload
    ensures Clean(SealedRow(e, h.Digest(e))) <==>
            Clean(e.payload) && Plain(e.eventId) && Plain(e.timestamp) && Plain(e.previousHash)
  {
    PlainIff(e.eventId);
    PlainIff(e.timestamp);
    PlainIff(e.previousHash);
    PlainIff(h.Digest(e));
    forall c | IsRawBreak(c)
      ensures RowMentions(SealedRow(e, h.Digest(e)), c) <==>
              RowMentions(e.payload, c) || c in e.eventId || c in e.timestamp || c in e.previousHash
    {
      EnvelopeMentions(e, h.Digest(e), c);
      assert Mentions(Obj(Envelope(e, h.Digest(e))), c) <==> RowMentions(Envelope(e, h.Digest(e)), c);
      MentionsAddedMember(e.payload, CHAIN_KEY, Obj(Envelope(e, h.Digest(e))), c);
    }
  }

  lemma NewRowIsReadableIff(p: Platform, e: AuditRecord)
    requires p.Lawful() && WritesRaw(p.codec) && PlainDigests(p.h) && CHAIN_KEY !in e.payload
    ensures Written(NewRow(p, e)).Readable(p.codec) <==>
            Clean(e.payload) && Plain(e.eventId) && Plain(e.timestamp) && Plain(e.previousHash)
  {
    UnbrokenIffClean(p, NewRow(p, e));
    SealedRowIsCleanIff(p.h, e);
  }

  /**
   After an append ``read_all`` returns the old rows and the new one iff the log could be read before
   and U+0085, U+2028 and U+2029 occur in no key or string of the payload - nor in the identifier, the
   time and the hash linked to, where this store never puts them. Otherwise it raises from then on.
   */
  lemma AppendReadsBackIff(p: Platform, lines: seq<Line<Row>>, record: seq<Entry>, eventId: string, timestamp: string)
    requires p.Lawful() && WritesRaw(p.codec) && PlainDigests(p.h) && SoundLog(p.codec, lines) && Acceptable(record)
    ensures var row := AppendedRow(p, lines, record, eventId, timestamp);
            var after := ReadBytes(p.codec, BytesOf(p.codec, lines + [Written(row)]));
            && (after.Ok? <==>
                  && ReadableLog(p.codec, lines) && Clean(NormalizeEntries(record).value)
                  && Plain(eventId) && Plain(timestamp) && Plain(TailOf(p.h, RowsOf(lines))))
            && (after.Ok? ==> after.value == RowsOf(lines) + [row])
  {
    var e := NewRecord(NormalizeEntries(record).value, eventId, timestamp, TailOf(p.h, RowsOf(lines)));
    var line := Written(NewRow(p, e));
    NewRowIsReadableIff(p, e);
    AppendLine(p.codec, lines, line);
    LastLineReadable(p.codec, lines, line);
    ReadsIffReadable(p.codec, lines + [line]);
  }
}
