/** A log that grows by one append after another (src/rif_runtime/storage/jsonl.py). */
module LogGrowth {
  import opened Wrappers
  import opened PythonValues
  import opened Utf8
  import opened Growth
  import opened LogFile
  import opened ChainTheory
  import opened AuditChain
  import opened ChainedStore

  /** What ``append`` holds when it asks for the lock: a normalised payload without the reserved key. */
  datatype RawRequest = Request(payload: Row, eventId: string, timestamp: string)
  type Request = r: RawRequest | CHAIN_KEY !in r.payload witness Request(map[], "", "")

  function WrittenLines(log: seq<Row>): seq<Line<Row>> {
    seq(|log|, i requires 0 <= i < |log| => Written(log[i]))
  }

  function RowAfter(p: Platform, previousHash: string, q: Request): Row {
    NewRow(p, NewRecord(q.payload, q.eventId, q.timestamp, previousHash))
  }

  /** The row that follows ``base`` and ``log``. */
  function NextRow(p: Platform, base: seq<Row>): (seq<Row>, Request) -> Row {
    (log: seq<Row>, q: Request) => RowAfter(p, TailOf(p.h, base + log), q)
  }

  /** The rows the requests add, one after the other, to a log that holds the rows ``base``. */
  function RowsFor(p: Platform, base: seq<Row>, qs: seq<Request>): (rows: seq<Row>)
    ensures |rows| == |qs|
  {
    Grow(NextRow(p, base), qs)
  }

  /** The log they leave. */
  function Grown(p: Platform, base: seq<Line<Row>>, qs: seq<Request>): seq<Line<Row>> {
    base + WrittenLines(RowsFor(p, RowsOf(base), qs))
  }

  lemma WrittenLinesGrow(base: seq<Line<Row>>, log: seq<Row>, row: Row)
    ensures base + WrittenLines(log + [row]) == (base + WrittenLines(log)) + [Written(row)]
  {
  }

  lemma {:induction false} RowsOfWritten(base: seq<Line<Row>>, log: seq<Row>)
    ensures RowsOf(base + WrittenLines(log)) == RowsOf(base) + log
  {
    if log == [] {
      assert base + WrittenLines(log) == base;
    } else {
      var init, row := log[..|log| - 1], log[|log| - 1];
      RowsOfWritten(base, init);
      assert log == init + [row];
      WrittenLinesGrow(base, init, row);
      AppendRow(base + WrittenLines(init), Written(row));
    }
  }

  lemma WrittenLinesAreSound(p: Platform, base: seq<Line<Row>>, log: seq<Row>)
    requires SoundLog(p.codec, base)
    ensures SoundLog(p.codec, base + WrittenLines(log))
  {
  }

  lemma GrownStep(p: Platform, base: seq<Line<Row>>, qs: seq<Request>, q: Request)
    ensures var row := RowAfter(p, TailOf(p.h, RowsOf(base) + RowsFor(p, RowsOf(base), qs)), q);
            && Grown(p, base, qs + [q]) == Grown(p, base, qs) + [Written(row)]
            && RowsFor(p, RowsOf(base), qs + [q]) == RowsFor(p, RowsOf(base), qs) + [row]
  {
    GrowStep(NextRow(p, RowsOf(base)), qs, q);
    var rows := RowsFor(p, RowsOf(base), qs);
    WrittenLinesGrow(base, rows, RowAfter(p, TailOf(p.h, RowsOf(base) + rows), q));
  }

  lemma RowAfterFits(p: Platform, rows: seq<Row>, q: Request)
    requires p.Lawful()
    ensures Rows(p.h).Fits(RowAfter(p, TailOf(p.h, rows), q), Rows(p.h).Before(rows, |rows|))
  {
    var e := NewRecord(q.payload, q.eventId, q.timestamp, TailOf(p.h, rows));
    SealedRowReadsBack(p.h, e, p.h.Digest(e));
  }

  lemma RowAfterCarries(p: Platform, previousHash: string, q: Request)
    ensures RowAfter(p, previousHash, q) - {CHAIN_KEY} == q.payload
  {
  }

  lemma RowsCarryPayloads(p: Platform, base: seq<Row>, qs: seq<Request>, i: nat)
    requires i < |qs|
    ensures RowsFor(p, base, qs)[i] - {CHAIN_KEY} == qs[i].payload
  {
    GrowAt(NextRow(p, base), qs, i);
    RowAfterCarries(p, TailOf(p.h, base + RowsFor(p, base, qs)[..i]), qs[i]);
  }

  lemma RowsFit(p: Platform, base: seq<Row>, qs: seq<Request>, i: nat)
    requires p.Lawful() && i < |qs|
    ensures var rows := RowsFor(p, base, qs);
            Rows(p.h).Fits(rows[i], Rows(p.h).Before(base + rows[..i], |base| + i))
  {
    GrowAt(NextRow(p, base), qs, i);
    RowAfterFits(p, base + RowsFor(p, base, qs)[..i], qs[i]);
  }

  /** Appends neither break a verified log nor repair a broken one. */
  lemma AppendsKeepVerdict(p: Platform, base: seq<Row>, qs: seq<Request>)
    requires p.Lawful()
    ensures Rows(p.h).Verified(base + RowsFor(p, base, qs)) <==> Rows(p.h).Verified(base)
  {
    forall i | 0 <= i < |qs|
      ensures var rows := RowsFor(p, base, qs);
              Rows(p.h).Fits(rows[i], Rows(p.h).Before(base + rows[..i], |base| + i))
    {
      RowsFit(p, base, qs, i);
    }
    FittingRowsKeepVerdict(Rows(p.h), base, RowsFor(p, base, qs));
  }

  /** A sound log stays sound, and its rows are the old ones and one for each request. */
  lemma GrownIsSound(p: Platform, base: seq<Line<Row>>, qs: seq<Request>)
    requires SoundLog(p.codec, base)
    ensures SoundLog(p.codec, Grown(p, base, qs))
    ensures RowsOf(Grown(p, base, qs)) == RowsOf(base) + RowsFor(p, RowsOf(base), qs)
  {
    WrittenLinesAreSound(p, base, RowsFor(p, RowsOf(base), qs));
    RowsOfWritten(base, RowsFor(p, RowsOf(base), qs));
  }

  /** After any appends the next one succeeds too, and leaves the bytes of the log grown by its row. */
  lemma NextAppendSucceeds(p: Platform, base: seq<Line<Row>>, qs: seq<Request>, record: seq<Entry>, q: Request)
    requires p.Lawful() && SoundLog(p.codec, base) && NormalizeEntries(record) == Ok(q.payload)
    ensures Appended(p, BytesOf(p.codec, Grown(p, base, qs)), record, q.eventId, q.timestamp)
            == Ok(BytesOf(p.codec, Grown(p, base, qs + [q])))
  {
    GrownIsSound(p, base, qs);
    GrownStep(p, base, qs, q);
    AppendAddsOneRow(p, Grown(p, base, qs), record, q.eventId, q.timestamp);
  }

  // ---- when the file can be read -------------------------------------------------------------

  /** None of U+0085, U+2028 and U+2029 anywhere in what is to be written. */
  ghost predicate CleanRequest(q: Request) {
    Clean(q.payload) && Plain(q.eventId) && Plain(q.timestamp)
  }

  /** What a caller can see of a log and the requests to come that decides whether the file stays readable. */
  ghost predicate StaysReadable(p: Platform, base: seq<Line<Row>>, qs: seq<Request>) {
    && ReadableLog(p.codec, base)
    && (qs != [] ==> Plain(TailOf(p.h, RowsOf(base))))
    && forall i :: 0 <= i < |qs| ==> CleanRequest(qs[i])
  }

  lemma TailIsPlain(p: Platform, base: seq<Row>, qs: seq<Request>)
    requires p.Lawful() && PlainDigests(p.h)
    ensures Plain(TailOf(p.h, base + RowsFor(p, base, qs))) <==> qs != [] || Plain(TailOf(p.h, base))
  {
    if qs == [] {
      assert base + [] == base;
    } else {
      var init, q := qs[..|qs| - 1], qs[|qs| - 1];
      var before := base + RowsFor(p, base, init);
      var e := NewRecord(q.payload, q.eventId, q.timestamp, TailOf(p.h, before));
      assert base + RowsFor(p, base, qs) == before + [NewRow(p, e)];
      AppendedRowVerifiesIff(p.h, before, e, p.h.Digest(e));
    }
  }

  lemma GrownReadableStep(p: Platform, base: seq<Line<Row>>, qs: seq<Request>, q: Request)
    requires p.Lawful() && WritesRaw(p.codec) && PlainDigests(p.h)
    ensures ReadableLog(p.codec, Grown(p, base, qs + [q])) <==>
            && ReadableLog(p.codec, Grown(p, base, qs)) && CleanRequest(q)
            && (qs != [] || Plain(TailOf(p.h, RowsOf(base))))
  {
    GrownStep(p, base, qs, q);
    TailIsPlain(p, RowsOf(base), qs);
    var tail := TailOf(p.h, RowsOf(base) + RowsFor(p, RowsOf(base), qs));
    LastLineReadable(p.codec, Grown(p, base, qs), Written(RowAfter(p, tail, q)));
    NewRowIsReadableIff(p, NewRecord(q.payload, q.eventId, q.timestamp, tail));
  }

  lemma StaysReadableStep(p: Platform, base: seq<Line<Row>>, qs: seq<Request>, q: Request)
    ensures StaysReadable(p, base, qs + [q]) <==>
            StaysReadable(p, base, qs) && CleanRequest(q) && (qs != [] || Plain(TailOf(p.h, RowsOf(base))))
  {
    var more := qs + [q];
    assert more[|qs|] == q && forall i :: 0 <= i < |qs| ==> more[i] == qs[i];
  }

  lemma {:induction false} GrownIsReadableIff(p: Platform, base: seq<Line<Row>>, qs: seq<Request>)
    requires p.Lawful() && WritesRaw(p.codec) && PlainDigests(p.h)
    ensures ReadableLog(p.codec, Grown(p, base, qs)) <==> StaysReadable(p, base, qs)
  {
    if qs == [] {
      assert Grown(p, base, qs) == base;
    } else {
      var init, q := qs[..|qs| - 1], qs[|qs| - 1];
      GrownIsReadableIff(p, base, init);
      assert qs == init + [q];
      GrownReadableStep(p, base, init, q);
      StaysReadableStep(p, base, init, q);
    }
  }

  /** The bytes the appends leave read back as the old rows and the new, or not at all. */
  lemma GrownReadsBackIff(p: Platform, base: seq<Line<Row>>, qs: seq<Request>)
    requires p.Lawful() && WritesRaw(p.codec) && PlainDigests(p.h) && SoundLog(p.codec, base)
    ensures var r := ReadBytes(p.codec, BytesOf(p.codec, Grown(p, base, qs)));
            && (r.Ok? <==> StaysReadable(p, base, qs))
            && (r.Ok? ==> r.value == RowsOf(base) + RowsFor(p, RowsOf(base), qs))
  {
    GrownIsSound(p, base, qs);
    GrownIsReadableIff(p, base, qs);
    ReadsIffReadable(p.codec, Grown(p, base, qs));
  }
}
