/** The locking protocol run on the hash-chained decision log (src/rif_runtime/storage/jsonl.py). */
module ConcurrentLog {
  import opened Wrappers
  import opened PythonValues
  import opened Utf8
  import opened Growth
  import opened LogFile
  import opened ChainTheory
  import opened AuditChain
  import opened ChainedStore
  import opened LogGrowth
  import opened Locking

  /** The store of a log that already holds the lines ``base``. */
  function LogStore(p: Platform, base: seq<Line<Row>>): Store<Request, Row> {
    Store(
      (log: seq<Row>) => BytesOf(p.codec, base + WrittenLines(log)),
      (row: Row) => LineBytes(p, row),
      (data: seq<Byte>, q: Request) =>
        (match TailHashOf(p, data) case Err(_) => None case Ok(hash) => Some(RowAfter(p, hash, q))),
      NextRow(p, RowsOf(base)))
  }

  /** The bytes of a sound log really do determine the next row, so the protocol applies. */
  lemma LogStoreIsLawful(p: Platform, base: seq<Line<Row>>)
    requires p.Lawful() && SoundLog(p.codec, base)
    ensures LogStore(p, base).Lawful()
  {
    var store := LogStore(p, base);
    forall log: seq<Row>, row: Row ensures store.image(log + [row]) == store.image(log) + store.line(row) {
      WrittenLinesGrow(base, log, row);
      AppendLine(p.codec, base + WrittenLines(log), Written(row));
    }
    forall log: seq<Row>, q: Request ensures store.seal(store.image(log), q) == Some(store.next(log, q)) {
      WrittenLinesAreSound(p, base, log);
      TailHashAgrees(p, base + WrittenLines(log));
      RowsOfWritten(base, log);
    }
  }

  /** The requests of the first ``n`` grants. */
  function Requests(granted: seq<Grant<Request>>, n: nat): seq<Request>
    requires n <= |granted|
  {
    seq(n, i requires 0 <= i < n => granted[i].request)
  }

  /** The state a run from a log holding ``base`` reaches. */
  function After(p: Platform, base: seq<Line<Row>>, actions: seq<Action<Request>>): State<Request, Row> {
    Run(LogStore(p, base), Init(LogStore(p, base)), actions)
  }

  /** The completed rows, up to any number of them, are the ones their requests add in lock order. */
  lemma LogIsGrown(p: Platform, base: seq<Line<Row>>, actions: seq<Action<Request>>, k: nat)
    requires p.Lawful() && SoundLog(p.codec, base) && k <= |After(p, base, actions).log|
    ensures var s := After(p, base, actions);
            && k <= |s.log| <= |s.granted|
            && s.log[..k] == RowsFor(p, RowsOf(base), Requests(s.granted, k))
            && BytesOf(p.codec, base + WrittenLines(s.log[..k])) ==
               BytesOf(p.codec, Grown(p, base, Requests(s.granted, k)))
  {
    LogStoreIsLawful(p, base);
    EveryRunIsSerial(LogStore(p, base), actions);
    var s := After(p, base, actions);
    forall i | 0 <= i < k
      ensures s.log[..k][i] == NextRow(p, RowsOf(base))(s.log[..k][..i], Requests(s.granted, k)[i])
    {
      assert s.log[..k][..i] == s.log[..i];
    }
    GrowIsUnique(NextRow(p, RowsOf(base)), s.log[..k], Requests(s.granted, k));
  }

  /**
   Any number of processes and any interleaving: whenever no exclusive lock is held, the file is
   whole rows - the ones it began with and one per completed append, in lock order, each carrying
   the payload of its request - and it verifies iff it verified to begin with.
   */
  lemma ConcurrentAppendsKeepOneChain(p: Platform, base: seq<Line<Row>>, actions: seq<Action<Request>>)
    requires p.Lawful() && SoundLog(p.codec, base)
    ensures var s := After(p, base, actions);
            && (!s.lock.Exclusive? ==>
                  s.file == BytesOf(p.codec, base + WrittenLines(s.log)) && |s.log| == |s.granted|)
            && |s.log| <= |s.granted|
            && (Rows(p.h).Verified(RowsOf(base) + s.log) <==> Rows(p.h).Verified(RowsOf(base)))
            && (forall i :: 0 <= i < |s.log| ==> s.log[i] - {CHAIN_KEY} == s.granted[i].request.payload)
  {
    var s := After(p, base, actions);
    LogStoreIsLawful(p, base);
    EveryRunIsSerial(LogStore(p, base), actions);
    LogIsGrown(p, base, actions, |s.log|);
    assert s.log[..|s.log|] == s.log;
    var qs := Requests(s.granted, |s.log|);
    AppendsKeepVerdict(p, RowsOf(base), qs);
    forall i | 0 <= i < |s.log| ensures s.log[i] - {CHAIN_KEY} == s.granted[i].request.payload {
      RowsCarryPayloads(p, RowsOf(base), qs, i);
    }
  }

  /**
   And appends do complete: from every state of every run any idle process can be brought to add its row
   behind all that was granted the lock before it. The file is then that log, and verifies iff it did.
   */
  lemma AnyAppendCanComplete(p: Platform, base: seq<Line<Row>>, actions: seq<Action<Request>>, pid: Pid, q: Request)
    returns (more: seq<Action<Request>>)
    requires p.Lawful() && SoundLog(p.codec, base) && After(p, base, actions).At(pid).Idle?
    ensures var s, t := After(p, base, actions), After(p, base, actions + more);
            && t.At(pid).Idle? && t.lock == Free
            && |t.log| == |t.granted| == |s.granted| + 1 && s.log <= t.log
            && t.log[|t.log| - 1] - {CHAIN_KEY} == q.payload
            && t.file == BytesOf(p.codec, base + WrittenLines(t.log))
            && (Rows(p.h).Verified(RowsOf(base) + t.log) <==> Rows(p.h).Verified(RowsOf(base)))
  {
    LogStoreIsLawful(p, base);
    more := EveryAppendCanComplete(LogStore(p, base), actions, pid, q);
    ConcurrentAppendsKeepOneChain(p, base, actions + more);
  }

  // ---- what a read returns -------------------------------------------------------------------

  /** The rows of the first ``n`` appends, read back. */
  ghost predicate ReturnsRows(p: Platform, base: seq<Line<Row>>, bytes: seq<Byte>, qs: seq<Request>) {
    var r := ReadBytes(p.codec, bytes);
    && (r.Ok? <==> StaysReadable(p, base, qs))
    && (r.Ok? ==> r.value == RowsOf(base) + RowsFor(p, RowsOf(base), qs))
  }

  /** Part of a row was in the file, and not all but its newline. */
  predicate Torn(p: Platform, pending: Option<Pending<Row>>) {
    pending.Some? && 0 < pending.value.flushed < |LineBytes(p, pending.value.row)| - 1
  }

  /** The requests whose rows were there to be read in full. */
  function Visible(granted: seq<Grant<Request>>, r: Read<Row>): seq<Request>
    requires r.complete + (if r.pending.Some? then 1 else 0) <= |granted|
  {
    Requests(granted, r.complete + (if r.pending.Some? && r.pending.value.flushed > 0 then 1 else 0))
  }

  lemma WholeReadReturnsRows(p: Platform, base: seq<Line<Row>>, actions: seq<Action<Request>>, k: nat)
    requires p.Lawful() && WritesRaw(p.codec) && PlainDigests(p.h) && SoundLog(p.codec, base)
    requires k <= |After(p, base, actions).log|
    ensures var s := After(p, base, actions);
            k <= |s.granted|
            && ReturnsRows(p, base, LogStore(p, base).image(s.log[..k]), Requests(s.granted, k))
  {
    LogIsGrown(p, base, actions, k);
    GrownReadsBackIff(p, base, Requests(After(p, base, actions).granted, k));
  }

  /** The file of a log grown by ``qs`` and so much of the next row. */
  function CutAfter(p: Platform, base: seq<Line<Row>>, qs: seq<Request>, q: Request, flushed: nat): seq<Byte>
    requires flushed <= |LineBytes(p, NextRow(p, RowsOf(base))(RowsFor(p, RowsOf(base), qs), q))|
  {
    CutFile(p.codec, Grown(p, base, qs), NextRow(p, RowsOf(base))(RowsFor(p, RowsOf(base), qs), q), flushed)
  }

  lemma EmptyCutReturnsRows(p: Platform, base: seq<Line<Row>>, qs: seq<Request>, q: Request)
    requires p.Lawful() && WritesRaw(p.codec) && PlainDigests(p.h) && SoundLog(p.codec, base)
    ensures ReturnsRows(p, base, CutAfter(p, base, qs, q, 0), qs)
  {
    GrownReadsBackIff(p, base, qs);
    assert CutAfter(p, base, qs, q, 0) == BytesOf(p.codec, Grown(p, base, qs));
  }

  lemma FullCutReturnsRows(p: Platform, base: seq<Line<Row>>, qs: seq<Request>, q: Request, flushed: nat)
    requires p.Lawful() && WritesRaw(p.codec) && PlainDigests(p.h) && SoundLog(p.codec, base)
    requires var n := |LineBytes(p, NextRow(p, RowsOf(base))(RowsFor(p, RowsOf(base), qs), q))|;
             0 < flushed && n - 1 <= flushed <= n
    ensures ReturnsRows(p, base, CutAfter(p, base, qs, q, flushed), qs + [q])
  {
    var row, log := NextRow(p, RowsOf(base))(RowsFor(p, RowsOf(base), qs), q), Grown(p, base, qs);
    GrownIsSound(p, base, qs);
    CutFileReads(p.codec, log, row, flushed);
    GrownStep(p, base, qs, q);
    LastLineReadable(p.codec, log, Written(row));
    AppendRow(log, Written(row));
    GrownIsSound(p, base, qs + [q]);
    GrownIsReadableIff(p, base, qs + [q]);
  }

  lemma CutReadReturnsRows(p: Platform, base: seq<Line<Row>>, qs: seq<Request>, q: Request, flushed: nat)
    requires p.Lawful() && WritesRaw(p.codec) && PlainDigests(p.h) && SoundLog(p.codec, base)
    requires flushed <= |LineBytes(p, NextRow(p, RowsOf(base))(RowsFor(p, RowsOf(base), qs), q))|
    ensures var row := NextRow(p, RowsOf(base))(RowsFor(p, RowsOf(base), qs), q);
            var bytes := CutAfter(p, base, qs, q, flushed);
            if Torn(p, Some(Pending(row, flushed))) then ReadBytes(p.codec, bytes).Err?
            else ReturnsRows(p, base, bytes, if flushed == 0 then qs else qs + [q])
  {
    var row := NextRow(p, RowsOf(base))(RowsFor(p, RowsOf(base), qs), q);
    if flushed == 0 {
      EmptyCutReturnsRows(p, base, qs, q);
    } else if flushed < |LineBytes(p, row)| - 1 {
      GrownIsSound(p, base, qs);
      CutLineRaises(p.codec, Grown(p, base, qs), row, flushed);
    } else {
      FullCutReturnsRows(p, base, qs, q, flushed);
    }
  }

  lemma VisibleOfPending(granted: seq<Grant<Request>>, r: Read<Row>)
    requires r.pending.Some? && r.complete < |granted|
    ensures Visible(granted, r) ==
            if r.pending.value.flushed == 0 then Requests(granted, r.complete)
            else Requests(granted, r.complete) + [granted[r.complete].request]
  {
  }

  /** The read ended in this part of the row of the next request. */
  ghost predicate IsCutOf(p: Platform, base: seq<Line<Row>>, granted: seq<Grant<Request>>, r: Read<Row>) {
    && r.pending.Some? && r.complete < |granted|
    && var qs, q := Requests(granted, r.complete), granted[r.complete].request;
       && r.pending.value.row == NextRow(p, RowsOf(base))(RowsFor(p, RowsOf(base), qs), q)
       && r.pending.value.flushed <= |LineBytes(p, r.pending.value.row)|
       && r.bytes == CutAfter(p, base, qs, q, r.pending.value.flushed)
  }

  lemma PendingIsCut(p: Platform, base: seq<Line<Row>>, actions: seq<Action<Request>>, r: Read<Row>)
    requires p.Lawful() && SoundLog(p.codec, base)
    requires ReadAgrees(LogStore(p, base), After(p, base, actions), r) && r.pending.Some?
    ensures IsCutOf(p, base, After(p, base, actions).granted, r)
  {
    LogIsGrown(p, base, actions, r.complete);
  }

  /** What a read says, whichever it is. */
  ghost predicate IsExact(p: Platform, base: seq<Line<Row>>, granted: seq<Grant<Request>>, r: Read<Row>) {
    && r.complete + (if r.pending.Some? then 1 else 0) <= |granted|
    && if Torn(p, r.pending) then ReadBytes(p.codec, r.bytes).Err?
       else ReturnsRows(p, base, r.bytes, Visible(granted, r))
  }

  lemma CutReadIsExact(p: Platform, base: seq<Line<Row>>, granted: seq<Grant<Request>>, r: Read<Row>)
    requires p.Lawful() && WritesRaw(p.codec) && PlainDigests(p.h) && SoundLog(p.codec, base)
    requires IsCutOf(p, base, granted, r)
    ensures IsExact(p, base, granted, r)
  {
    VisibleOfPending(granted, r);
    CutReadReturnsRows(p, base, Requests(granted, r.complete), granted[r.complete].request, r.pending.value.flushed);
  }

  lemma WholeIsExact(p: Platform, base: seq<Line<Row>>, granted: seq<Grant<Request>>, r: Read<Row>)
    requires r.pending == None
    ensures IsExact(p, base, granted, r) <==>
            r.complete <= |granted| && ReturnsRows(p, base, r.bytes, Requests(granted, r.complete))
  {
  }

  lemma ReadIsExact(p: Platform, base: seq<Line<Row>>, actions: seq<Action<Request>>, r: Read<Row>)
    requires p.Lawful() && WritesRaw(p.codec) && PlainDigests(p.h) && SoundLog(p.codec, base)
    requires ReadAgrees(LogStore(p, base), After(p, base, actions), r)
    ensures IsExact(p, base, After(p, base, actions).granted, r)
  {
    if r.pending.Some? {
      PendingIsCut(p, base, actions, r);
      CutReadIsExact(p, base, After(p, base, actions).granted, r);
    } else {
      WholeReadReturnsRows(p, base, actions, r.complete);
      WholeIsExact(p, base, After(p, base, actions).granted, r);
    }
  }

  /**
   Whatever a read returns, under the shared lock or, as ``ReplayEngine`` reads, under none. If the
   holder of the exclusive lock has flushed some of its row, but not all up to at most the newline, the
   read raises, wherever the cut falls. Otherwise it returns the rows the log started with, the rows
   completed when it ended, and the holder's if that is all there, iff the log could be read and none of
   those requests holds one of the three characters. Under the shared lock there is no such holder.
   */
  lemma ReadsAreExact(p: Platform, base: seq<Line<Row>>, actions: seq<Action<Request>>, i: nat)
    requires p.Lawful() && WritesRaw(p.codec) && PlainDigests(p.h) && SoundLog(p.codec, base)
    requires i < |After(p, base, actions).finished|
    ensures var s := After(p, base, actions);
            && IsExact(p, base, s.granted, s.finished[i])
            && (s.finished[i].locked ==> s.finished[i].pending == None)
  {
    LogStoreIsLawful(p, base);
    EveryRunIsSerial(LogStore(p, base), actions);
    assert ReadAgrees(LogStore(p, base), After(p, base, actions), After(p, base, actions).finished[i]);
    ReadIsExact(p, base, actions, After(p, base, actions).finished[i]);
  }

  /**
   So a read under the shared lock returns the rows the log started with and those of exactly the
   appends completed when it ended, iff none of the three characters is among them.
   */
  lemma LockedReadsReturnWholeRows(p: Platform, base: seq<Line<Row>>, actions: seq<Action<Request>>, i: nat)
    requires p.Lawful() && WritesRaw(p.codec) && PlainDigests(p.h) && SoundLog(p.codec, base)
    requires i < |After(p, base, actions).finished| && After(p, base, actions).finished[i].locked
    ensures var s, r := After(p, base, actions), After(p, base, actions).finished[i];
            r.complete <= |s.granted| && ReturnsRows(p, base, r.bytes, Requests(s.granted, r.complete))
  {
    ReadsAreExact(p, base, actions, i);
    WholeIsExact(p, base, After(p, base, actions).granted, After(p, base, actions).finished[i]);
  }

  /** The same of the file at every moment of every run, whether or not a read ends there. */
  lemma FileReadsExactly(p: Platform, base: seq<Line<Row>>, actions: seq<Action<Request>>)
    requires p.Lawful() && WritesRaw(p.codec) && PlainDigests(p.h) && SoundLog(p.codec, base)
    ensures var s := After(p, base, actions);
            IsExact(p, base, s.granted, Read(false, s.file, |s.log|, s.InFlight()))
  {
    LogStoreIsLawful(p, base);
    RunKeepsInv(LogStore(p, base), actions);
    var s := After(p, base, actions);
    FileReadsAs(LogStore(p, base), s, false);
    ReadIsExact(p, base, actions, Read(false, s.file, |s.log|, s.InFlight()));
  }

  /** And such a moment exists for every log and every append: a read that ends in it raises. */
  lemma UnlockedReadCanRaise(p: Platform, base: seq<Line<Row>>, q: Request) returns (actions: seq<Action<Request>>)
    requires p.Lawful() && SoundLog(p.codec, base)
    ensures var s := After(p, base, actions);
            |s.finished| == 1 && !s.finished[0].locked && ReadBytes(p.codec, s.finished[0].bytes).Err?
  {
    var store := LogStore(p, base);
    LogStoreIsLawful(p, base);
    var row := store.next([], q);
    var s := p.codec.dumps(row);
    LineEncoding(s);
    assert Encode(s) == EncodeChar(s[0]) + Encode(s[1..]) && s[1..] != [];
    LineEncoding(s[1..]);
    actions := UnlockedReadSeesTornRow(store, q, 1);
    assert base + WrittenLines([]) == base;
    CutLineRaises(p.codec, base, row, 1);
  }
}
