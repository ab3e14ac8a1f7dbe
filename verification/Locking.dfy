/**
 Any number of processes appending to and reading one log under an advisory file lock
 (src/rif_runtime/storage/jsonl.py). A write reaches the file in pieces of any size; the lock is
 released only once the buffer is empty; a read also proceeds in pieces, under the shared lock or,
 as replay does it (src/rif_runtime/replay.py), under none.
 */
module Locking {
  import opened Wrappers
  import opened Utf8

  type Pid = nat

  /**
   What an append computes while it holds the lock. ``image`` is the file of a log, ``line`` the
   bytes of one row, ``seal`` the row built for a request from the bytes found in the file, and
   ``next`` the row that belongs after a log.
   */
  datatype Store<!Q(!new), !R(!new)> = Store(
    image: seq<R> -> seq<Byte>,
    line: R -> seq<Byte>,
    seal: (seq<Byte>, Q) -> Option<R>,
    next: (seq<R>, Q) -> R)
  {
    /** Rows are written one after the other, and the bytes alone determine the next one. */
    ghost predicate Lawful() {
      && (forall log, r :: image(log + [r]) == image(log) + line(r))
      && (forall log, q :: seal(image(log), q) == Some(next(log, q)))
    }
  }

  datatype Lock = Free | Exclusive(owner: Pid) | Shared(readers: set<Pid>)

  datatype Local<Q, R> =
    | Idle
    | WantsWrite(request: Q)
    | Locked(request: Q)
    | Flushing(row: R, flushed: nat)
    | Raised
    | WantsRead
    | Reading(seen: seq<Byte>)
    | Peeking(seen: seq<Byte>)

  datatype Grant<Q> = Grant(pid: Pid, request: Q)

  /** A row being written and how many of its bytes have reached the file. */
  datatype Pending<R> = Pending(row: R, flushed: nat)

  /**
   A read that reached the end of the file: under the shared lock or not, what it returned, and how
   things stood at that moment - the number of completed rows and the row being written, if any.
   */
  datatype Read<R> = Read(locked: bool, bytes: seq<Byte>, complete: nat, pending: Option<Pending<R>>)

  /**
   The shared file and lock, every process's progress, and the history: which requests were granted
   the exclusive lock, which rows were completed, and the reads that finished.
   */
  datatype State<Q, R> = State(
    file: seq<Byte>,
    lock: Lock,
    procs: map<Pid, Local<Q, R>>,
    granted: seq<Grant<Q>>,
    log: seq<R>,
    finished: seq<Read<R>>)
  {
    function At(pid: Pid): Local<Q, R> {
      if pid in procs then procs[pid] else Idle
    }

    function Go(pid: Pid, l: Local<Q, R>): State<Q, R> {
      this.(procs := procs[pid := l])
    }

    /** The row the lock holder is writing. */
    function InFlight(): Option<Pending<R>> {
      if lock.Exclusive? && At(lock.owner).Flushing? then Some(Pending(At(lock.owner).row, At(lock.owner).flushed))
      else None
    }

    function Finish(pid: Pid, locked: bool, seen: seq<Byte>): State<Q, R> {
      Go(pid, Idle).(finished := finished + [Read(locked, seen, |log|, InFlight())])
    }
  }

  datatype Action<Q> =
    | RequestWrite(pid: Pid, request: Q)
    | LockExclusive(pid: Pid)
    | BuildRow(pid: Pid)
    | Flush(pid: Pid, count: nat)
    | UnlockExclusive(pid: Pid)
    | RequestRead(pid: Pid)
    | LockShared(pid: Pid)
    | ReadMore(pid: Pid, count: nat)
    | UnlockShared(pid: Pid)
    | StartPeek(pid: Pid)
    | PeekMore(pid: Pid, count: nat)
    | EndPeek(pid: Pid)

  function Init<Q(!new), R(!new)>(store: Store<Q, R>): State<Q, R> {
    State(store.image([]), Free, map[], [], [], [])
  }

  /** One step of one process; a step that is not possible changes nothing. */
  function Step<Q(!new), R(!new)>(store: Store<Q, R>, s: State<Q, R>, a: Action<Q>): State<Q, R> {
    var here := s.At(a.pid);
    match a
    case RequestWrite(pid, request) => if here.Idle? then s.Go(pid, WantsWrite(request)) else s
    case LockExclusive(pid) =>
      if here.WantsWrite? && s.lock == Free then
        s.Go(pid, Locked(here.request)).(lock := Exclusive(pid), granted := s.granted + [Grant(pid, here.request)])
      else s
    case BuildRow(pid) =>
      if !here.Locked? then s else
      (match store.seal(s.file, here.request)
       case None => s.Go(pid, Raised)
       case Some(row) => s.Go(pid, Flushing(row, 0)))
    case Flush(pid, count) =>
      if here.Flushing? && here.flushed + count <= |store.line(here.row)| then
        var flushed := here.flushed + count;
        s.Go(pid, Flushing(here.row, flushed)).(file := s.file + store.line(here.row)[here.flushed..flushed])
      else s
    case UnlockExclusive(pid) =>
      if here.Flushing? && here.flushed == |store.line(here.row)| then
        s.Go(pid, Idle).(lock := Free, log := s.log + [here.row])
      else if here.Raised? then s.Go(pid, Idle).(lock := Free)
      else s
    case RequestRead(pid) => if here.Idle? then s.Go(pid, WantsRead) else s
    case LockShared(pid) =>
      if here.WantsRead? && !s.lock.Exclusive? then
        s.Go(pid, Reading([])).(lock := Shared((if s.lock.Shared? then s.lock.readers else {}) + {pid}))
      else s
    case ReadMore(pid, count) =>
      if here.Reading? && |here.seen| + count <= |s.file| then
        s.Go(pid, Reading(s.file[..|here.seen| + count]))
      else s
    case UnlockShared(pid) =>
      if here.Reading? && |here.seen| == |s.file| && s.lock.Shared? then
        var left := s.lock.readers - {pid};
        s.Finish(pid, true, here.seen).(lock := if left == {} then Free else Shared(left))
      else s
    case StartPeek(pid) => if here.Idle? then s.Go(pid, Peeking([])) else s
    case PeekMore(pid, count) =>
      if here.Peeking? && |here.seen| + count <= |s.file| then
        s.Go(pid, Peeking(s.file[..|here.seen| + count]))
      else s
    case EndPeek(pid) =>
      if here.Peeking? && |here.seen| == |s.file| then s.Finish(pid, false, here.seen) else s
  }

  function Run<Q(!new), R(!new)>(store: Store<Q, R>, s: State<Q, R>, actions: seq<Action<Q>>): State<Q, R> {
    if actions == [] then s
    else Step(store, Run(store, s, actions[..|actions| - 1]), actions[|actions| - 1])
  }

  // ---- what every step keeps -----------------------------------------------------------------

  predicate InCriticalSection<Q, R>(l: Local<Q, R>) {
    l.Locked? || l.Flushing? || l.Raised?
  }

  /** The lock records exactly who is where. */
  ghost predicate LockAgrees<Q, R>(s: State<Q, R>) {
    && (forall pid: Pid :: InCriticalSection(s.At(pid)) <==> s.lock == Exclusive(pid))
    && (forall pid: Pid :: s.At(pid).Reading? <==> s.lock.Shared? && pid in s.lock.readers)
    && (s.lock.Shared? ==> s.lock.readers != {})
  }

  /** The requests granted the lock so far whose rows are complete. */
  function Served<Q, R>(s: State<Q, R>): nat {
    if s.lock.Exclusive? && |s.granted| > 0 then |s.granted| - 1 else |s.granted|
  }

  /** Each completed row is the one its request should add to the rows before it, in lock order. */
  ghost predicate History<Q(!new), R(!new)>(store: Store<Q, R>, s: State<Q, R>) {
    && |s.log| == Served(s)
    && (forall i :: 0 <= i < |s.log| ==> s.log[i] == store.next(s.log[..i], s.granted[i].request))
    && (s.lock.Exclusive? ==> |s.granted| > 0 && s.granted[|s.granted| - 1].pid == s.lock.owner)
  }

  /** The file is the completed log, plus what the lock holder has flushed of its row. */
  ghost predicate FileAgrees<Q(!new), R(!new)>(store: Store<Q, R>, s: State<Q, R>) {
    if !s.lock.Exclusive? then s.file == store.image(s.log) else
    match s.At(s.lock.owner)
    case Locked(request) =>
      && s.file == store.image(s.log)
      && |s.granted| > 0 && request == s.granted[|s.granted| - 1].request
    case Flushing(row, flushed) =>
      && flushed <= |store.line(row)| && s.file == store.image(s.log) + store.line(row)[..flushed]
      && |s.granted| > 0 && row == store.next(s.log, s.granted[|s.granted| - 1].request)
    case _ => false
  }

  /**
   A read returned the rows complete at its moment and so much of the row being written as had been
   flushed; under the shared lock there was none. That row is the next request's.
   */
  ghost predicate ReadAgrees<Q(!new), R(!new)>(store: Store<Q, R>, s: State<Q, R>, r: Read<R>) {
    && r.complete <= |s.log|
    && match r.pending
       case None => r.bytes == store.image(s.log[..r.complete])
       case Some(Pending(row, flushed)) =>
         && !r.locked
         && r.complete < |s.granted| && row == store.next(s.log[..r.complete], s.granted[r.complete].request)
         && flushed <= |store.line(row)| && r.bytes == store.image(s.log[..r.complete]) + store.line(row)[..flushed]
  }

  predicate Scans<Q, R>(l: Local<Q, R>) {
    l.Reading? || l.Peeking?
  }

  ghost predicate ReadersAgree<Q(!new), R(!new)>(store: Store<Q, R>, s: State<Q, R>) {
    && (forall pid: Pid :: Scans(s.At(pid)) ==> s.At(pid).seen <= s.file)
    && (forall i :: 0 <= i < |s.finished| ==> ReadAgrees(store, s, s.finished[i]))
  }

  ghost predicate Inv<Q(!new), R(!new)>(store: Store<Q, R>, s: State<Q, R>) {
    LockAgrees(s) && History(store, s) && FileAgrees(store, s) && ReadersAgree(store, s)
  }

  lemma StepKeepsLock<Q(!new), R(!new)>(store: Store<Q, R>, s: State<Q, R>, a: Action<Q>)
    requires LockAgrees(s)
    ensures LockAgrees(Step(store, s, a))
  {
    var s', p := Step(store, s, a), a.pid;
    forall pid: Pid
      ensures InCriticalSection(s'.At(pid)) <==> s'.lock == Exclusive(pid)
      ensures s'.At(pid).Reading? <==> s'.lock.Shared? && pid in s'.lock.readers
    {
      assert pid != p ==> s'.At(pid) == s.At(pid);
      assert InCriticalSection(s.At(pid)) <==> s.lock == Exclusive(pid);
      assert InCriticalSection(s.At(p)) <==> s.lock == Exclusive(p);
      assert s.At(p).Reading? <==> s.lock.Shared? && p in s.lock.readers;
      if a.UnlockShared? && s' != s && s'.lock == Free && pid != p && s.lock.Shared? {
        assert pid !in s.lock.readers - {p};
      }
    }
  }

  lemma StepKeepsHistory<Q(!new), R(!new)>(store: Store<Q, R>, s: State<Q, R>, a: Action<Q>)
    requires LockAgrees(s) && History(store, s) && FileAgrees(store, s)
    ensures History(store, Step(store, s, a))
  {
    var s', here := Step(store, s, a), s.At(a.pid);
    assert InCriticalSection(here) <==> s.lock == Exclusive(a.pid);
    if a.UnlockExclusive? && here.Flushing? && s' != s {
      assert forall i :: 0 <= i < |s.log| ==> s'.log[..i] == s.log[..i];
      assert s'.log[..|s.log|] == s.log;
    }
  }

  lemma FlushKeepsFile<Q(!new), R(!new)>(store: Store<Q, R>, s: State<Q, R>, pid: Pid, count: nat)
    requires s.lock == Exclusive(pid) && FileAgrees(store, s)
    ensures FileAgrees(store, Step(store, s, Flush(pid, count)))
  {
    var s', here := Step(store, s, Flush(pid, count)), s.At(pid);
    if s' != s {
      var line, n, m := store.line(here.row), here.flushed, here.flushed + count;
      assert line[..n] + line[n..m] == line[..m];
      assert s'.file == store.image(s.log) + line[..m];
    }
  }

  lemma UnlockKeepsFile<Q(!new), R(!new)>(store: Store<Q, R>, s: State<Q, R>, pid: Pid)
    requires store.Lawful() && s.lock == Exclusive(pid) && FileAgrees(store, s)
    ensures FileAgrees(store, Step(store, s, UnlockExclusive(pid)))
  {
    var here := s.At(pid);
    if here.Flushing? { assert store.line(here.row)[..|store.line(here.row)|] == store.line(here.row); }
  }

  lemma StepKeepsFile<Q(!new), R(!new)>(store: Store<Q, R>, s: State<Q, R>, a: Action<Q>)
    requires store.Lawful() && LockAgrees(s) && FileAgrees(store, s)
    ensures FileAgrees(store, Step(store, s, a))
  {
    assert InCriticalSection(s.At(a.pid)) <==> s.lock == Exclusive(a.pid);
    match a
    case Flush(pid, count) => if s.At(pid).Flushing? { FlushKeepsFile(store, s, pid, count); }
    case UnlockExclusive(pid) => if InCriticalSection(s.At(pid)) { UnlockKeepsFile(store, s, pid); }
    case BuildRow(pid) => if s.At(pid).Locked? { assert store.seal(s.file, s.At(pid).request).Some?; }
    case _ =>
  }

  /** The file, the log, the grants and the finished reads only ever grow. */
  lemma StepOnlyAdds<Q(!new), R(!new)>(store: Store<Q, R>, s: State<Q, R>, a: Action<Q>)
    ensures var s' := Step(store, s, a);
            s.file <= s'.file && s.log <= s'.log && s.granted <= s'.granted && s.finished <= s'.finished
  {
  }

  lemma StepKeepsScans<Q(!new), R(!new)>(store: Store<Q, R>, s: State<Q, R>, a: Action<Q>, pid: Pid)
    requires forall pid: Pid :: Scans(s.At(pid)) ==> s.At(pid).seen <= s.file
    requires Scans(Step(store, s, a).At(pid))
    ensures Step(store, s, a).At(pid).seen <= Step(store, s, a).file
  {
    StepOnlyAdds(store, s, a);
    assert pid != a.pid ==> Step(store, s, a).At(pid) == s.At(pid);
    assert Scans(s.At(pid)) ==> s.At(pid).seen <= s.file;
  }

  lemma GrowthKeepsRead<Q(!new), R(!new)>(store: Store<Q, R>, s: State<Q, R>, s': State<Q, R>, r: Read<R>)
    requires ReadAgrees(store, s, r) && s.log <= s'.log && s.granted <= s'.granted
    ensures ReadAgrees(store, s', r)
  {
    assert s'.log[..r.complete] == s.log[..r.complete];
  }

  /** Whoever read the file now, to its end, would see what the lock and its holder say. */
  lemma FileReadsAs<Q(!new), R(!new)>(store: Store<Q, R>, s: State<Q, R>, locked: bool)
    requires LockAgrees(s) && History(store, s) && FileAgrees(store, s) && (locked ==> !s.lock.Exclusive?)
    ensures ReadAgrees(store, s, Read(locked, s.file, |s.log|, s.InFlight()))
  {
    assert s.log[..|s.log|] == s.log;
  }

  lemma StepKeepsReads<Q(!new), R(!new)>(store: Store<Q, R>, s: State<Q, R>, a: Action<Q>)
    requires LockAgrees(s) && History(store, s) && FileAgrees(store, s) && ReadersAgree(store, s)
    ensures ReadersAgree(store, Step(store, s, a))
  {
    var s', here := Step(store, s, a), s.At(a.pid);
    StepOnlyAdds(store, s, a);
    forall pid: Pid | Scans(s'.At(pid)) ensures s'.At(pid).seen <= s'.file { StepKeepsScans(store, s, a, pid); }
    forall i | 0 <= i < |s'.finished| ensures ReadAgrees(store, s', s'.finished[i]) {
      if i < |s.finished| {
        GrowthKeepsRead(store, s, s', s.finished[i]);
      } else {
        assert here.Reading? <==> s.lock.Shared? && a.pid in s.lock.readers;
        FileReadsAs(store, s, here.Reading?);
        GrowthKeepsRead(store, s, s', s'.finished[i]);
      }
    }
  }

  lemma StepKeepsInv<Q(!new), R(!new)>(store: Store<Q, R>, s: State<Q, R>, a: Action<Q>)
    requires store.Lawful() && Inv(store, s)
    ensures Inv(store, Step(store, s, a))
  {
    StepKeepsLock(store, s, a);
    StepKeepsHistory(store, s, a);
    StepKeepsFile(store, s, a);
    StepKeepsReads(store, s, a);
  }

  lemma {:induction false} RunKeepsInv<Q(!new), R(!new)>(store: Store<Q, R>, actions: seq<Action<Q>>)
    requires store.Lawful()
    ensures Inv(store, Run(store, Init(store), actions))
  {
    if actions != [] {
      var n := |actions| - 1;
      RunKeepsInv(store, actions[..n]);
      StepKeepsInv(store, Run(store, Init(store), actions[..n]), actions[n]);
    }
  }

  // ---- what follows for every run ------------------------------------------------------------

  /**
   Whatever the interleaving: while nobody holds the exclusive lock, the file is exactly the
   completed rows, one per grant and in the order of the grants; and every read that finished saw
   the rows complete at its moment - under the shared lock, never part of another.
   */
  lemma EveryRunIsSerial<Q(!new), R(!new)>(store: Store<Q, R>, actions: seq<Action<Q>>)
    requires store.Lawful()
    ensures var s := Run(store, Init(store), actions);
            && (!s.lock.Exclusive? ==> s.file == store.image(s.log) && |s.log| == |s.granted|)
            && |s.log| <= |s.granted|
            && (forall i :: 0 <= i < |s.log| ==> s.log[i] == store.next(s.log[..i], s.granted[i].request))
            && (forall i :: 0 <= i < |s.finished| ==> ReadAgrees(store, s, s.finished[i]))
  {
    RunKeepsInv(store, actions);
  }

  lemma {:induction false} RunOnlyAdds<Q(!new), R(!new)>(store: Store<Q, R>, actions: seq<Action<Q>>, i: nat)
    requires i <= |actions|
    ensures Run(store, Init(store), actions[..i]).finished <= Run(store, Init(store), actions).finished
    ensures Run(store, Init(store), actions[..i]).log <= Run(store, Init(store), actions).log
  {
    var n := |actions| - 1;
    if i == |actions| {
      assert actions[..i] == actions;
    } else {
      RunOnlyAdds(store, actions[..n], i);
      assert actions[..n][..i] == actions[..i];
      StepOnlyAdds(store, Run(store, Init(store), actions[..n]), actions[n]);
    }
  }

  /** A read reports the file and the number of completed rows of the very moment at which it ends. */
  lemma ReadsReportTheirMoment<Q(!new), R(!new)>(store: Store<Q, R>, actions: seq<Action<Q>>, i: nat)
    requires store.Lawful() && i < |actions| && (actions[i].UnlockShared? || actions[i].EndPeek?)
    requires var s := Run(store, Init(store), actions[..i]); Step(store, s, actions[i]) != s
    ensures var s, end := Run(store, Init(store), actions[..i]), Run(store, Init(store), actions);
            && |s.finished| < |end.finished|
            && end.finished[|s.finished|] == Read(actions[i].UnlockShared?, s.file, |s.log|, s.InFlight())
  {
    var s := Run(store, Init(store), actions[..i]);
    RunKeepsInv(store, actions[..i]);
    assert Scans(s.At(actions[i].pid));
    RunOnlyAdds(store, actions, i + 1);
    assert actions[..i + 1][..i] == actions[..i];
    assert Run(store, Init(store), actions[..i + 1]) == Step(store, s, actions[i]);
  }

  /** At most one process is between taking and releasing the exclusive lock, and then nobody reads. */
  lemma MutualExclusion<Q(!new), R(!new)>(store: Store<Q, R>, actions: seq<Action<Q>>, p: Pid, q: Pid)
    requires store.Lawful() && InCriticalSection(Run(store, Init(store), actions).At(p))
    ensures var s := Run(store, Init(store), actions);
            !s.At(p).Raised? && !s.At(q).Reading? && (InCriticalSection(s.At(q)) ==> p == q)
  {
    RunKeepsInv(store, actions);
    var s := Run(store, Init(store), actions);
    assert s.lock == Exclusive(p);
  }

  // ---- what can always be completed ----------------------------------------------------------

  lemma {:induction false} RunsJoin<Q(!new), R(!new)>(
      store: Store<Q, R>, s: State<Q, R>, a: seq<Action<Q>>, b: seq<Action<Q>>)
    ensures Run(store, s, a + b) == Run(store, Run(store, s, a), b)
  {
    if b == [] {
      assert a + b == a;
    } else {
      assert (a + b)[..|a + b| - 1] == a + b[..|b| - 1];
      RunsJoin(store, s, a, b[..|b| - 1]);
    }
  }

  lemma RunOne<Q(!new), R(!new)>(store: Store<Q, R>, s: State<Q, R>, a: Action<Q>)
    ensures Run(store, s, [a]) == Step(store, s, a)
  {
    assert [a][..0] == [] && Run(store, s, [a][..0]) == s;
  }

  lemma {:induction false} InvIsKept<Q(!new), R(!new)>(store: Store<Q, R>, s: State<Q, R>, actions: seq<Action<Q>>)
    requires store.Lawful() && Inv(store, s)
    ensures Inv(store, Run(store, s, actions))
  {
    if actions != [] {
      var n := |actions| - 1;
      InvIsKept(store, s, actions[..n]);
      StepKeepsInv(store, Run(store, s, actions[..n]), actions[n]);
    }
  }

  /** What the lock holder has left to do: flush the rest of its row and let go. */
  lemma FinishFlush<Q(!new), R(!new)>(store: Store<Q, R>, s: State<Q, R>, pid: Pid) returns (actions: seq<Action<Q>>)
    requires store.Lawful() && Inv(store, s) && s.lock == Exclusive(pid) && s.At(pid).Flushing?
    ensures Run(store, s, actions) ==
            s.Go(pid, Idle).(lock := Free, log := s.log + [s.At(pid).row],
                             file := store.image(s.log) + store.line(s.At(pid).row))
  {
    var row, n := s.At(pid).row, s.At(pid).flushed;
    var line := store.line(row);
    var flush := Flush(pid, |line| - n);
    actions := [flush] + [UnlockExclusive(pid)];
    RunsJoin(store, s, [flush], [UnlockExclusive(pid)]);
    RunOne(store, s, flush);
    RunOne(store, Step(store, s, flush), UnlockExclusive(pid));
    assert line[..n] + line[n..|line|] == line;
    assert s.file + line[n..|line|] == store.image(s.log) + line;
    assert s.procs[pid := Flushing(row, |line|)][pid := Local<Q, R>.Idle] == s.procs[pid := Local<Q, R>.Idle];
  }

  lemma FinishWrite<Q(!new), R(!new)>(store: Store<Q, R>, s: State<Q, R>, pid: Pid) returns (actions: seq<Action<Q>>)
    requires store.Lawful() && Inv(store, s) && s.lock == Exclusive(pid)
    ensures |s.granted| > 0
    ensures var row := store.next(s.log, s.granted[|s.granted| - 1].request);
            Run(store, s, actions) ==
            s.Go(pid, Idle).(lock := Free, log := s.log + [row], file := store.image(s.log) + store.line(row))
  {
    assert InCriticalSection(s.At(pid));
    if s.At(pid).Flushing? {
      actions := FinishFlush(store, s, pid);
    } else {
      assert s.At(pid).Locked?;
      var t := Step(store, s, BuildRow(pid));
      StepKeepsInv(store, s, BuildRow(pid));
      var rest := FinishFlush(store, t, pid);
      actions := [BuildRow(pid)] + rest;
      RunsJoin(store, s, [BuildRow(pid)], rest);
      RunOne(store, s, BuildRow(pid));
      assert t.procs[pid := Local<Q, R>.Idle] == s.procs[pid := Local<Q, R>.Idle];
    }
  }

  lemma FinishOneRead<Q(!new), R(!new)>(store: Store<Q, R>, s: State<Q, R>, pid: Pid) returns (actions: seq<Action<Q>>)
    requires Inv(store, s) && s.lock.Shared? && pid in s.lock.readers
    ensures var left := s.lock.readers - {pid};
            Run(store, s, actions) ==
            s.Go(pid, Idle).(lock := if left == {} then Free else Shared(left),
                             finished := s.finished + [Read(true, s.file, |s.log|, None)])
  {
    assert s.At(pid).Reading?;
    var more := ReadMore(pid, |s.file| - |s.At(pid).seen|);
    actions := [more] + [UnlockShared(pid)];
    RunsJoin(store, s, [more], [UnlockShared(pid)]);
    RunOne(store, s, more);
    RunOne(store, Step(store, s, more), UnlockShared(pid));
    assert s.file[..|s.file|] == s.file;
    assert s.procs[pid := Local<Q, R>.Reading(s.file)][pid := Local<Q, R>.Idle] == s.procs[pid := Local<Q, R>.Idle];
  }

  /** The row that completes when the lock is let go. */
  function Owed<Q(!new), R(!new)>(store: Store<Q, R>, s: State<Q, R>): seq<R> {
    if s.lock.Exclusive? && |s.granted| > 0 then [store.next(s.log, s.granted[|s.granted| - 1].request)] else []
  }

  /** Whoever holds the lock, it can be let go: the writer completes its row, the readers their reads. */
  lemma {:induction false} LockCanBeFreed<Q(!new), R(!new)>(store: Store<Q, R>, s: State<Q, R>)
    returns (actions: seq<Action<Q>>)
    requires store.Lawful() && Inv(store, s)
    ensures var t := Run(store, s, actions);
            && t.lock == Free && t.log == s.log + Owed(store, s) && t.granted == s.granted
            && forall pid: Pid :: s.At(pid).Idle? ==> t.At(pid).Idle?
    decreases if s.lock.Shared? then 1 + |s.lock.readers| else 0
  {
    match s.lock
    case Free =>
      actions := [];
      assert s.log + [] == s.log;
    case Exclusive(owner) => actions := FinishWrite(store, s, owner);
    case Shared(readers) =>
      var pid :| pid in readers;
      var one := FinishOneRead(store, s, pid);
      var t := Run(store, s, one);
      InvIsKept(store, s, one);
      assert forall q: Pid :: s.At(q).Idle? ==> t.At(q).Idle?;
      var rest := LockCanBeFreed(store, t);
      actions := one + rest;
      RunsJoin(store, s, one, rest);
      assert s.log + [] == s.log;
  }

  lemma TakeLock<Q(!new), R(!new)>(store: Store<Q, R>, s: State<Q, R>, pid: Pid, request: Q)
    returns (actions: seq<Action<Q>>)
    requires s.lock == Free && s.At(pid).Idle?
    ensures Run(store, s, actions) ==
            s.Go(pid, Locked(request)).(lock := Exclusive(pid), granted := s.granted + [Grant(pid, request)])
  {
    actions := [RequestWrite(pid, request)] + [LockExclusive(pid)];
    RunsJoin(store, s, [RequestWrite(pid, request)], [LockExclusive(pid)]);
    RunOne(store, s, RequestWrite(pid, request));
    RunOne(store, Step(store, s, RequestWrite(pid, request)), LockExclusive(pid));
    assert s.procs[pid := Local<Q, R>.WantsWrite(request)][pid := Local<Q, R>.Locked(request)] ==
           s.procs[pid := Local<Q, R>.Locked(request)];
  }

  /** With the lock free, an idle process can append: its row, built from the rows there, and nothing else. */
  lemma AppendCompletes<Q(!new), R(!new)>(store: Store<Q, R>, s: State<Q, R>, pid: Pid, request: Q)
    returns (actions: seq<Action<Q>>)
    requires store.Lawful() && Inv(store, s) && s.lock == Free && s.At(pid).Idle?
    ensures var t, row := Run(store, s, actions), store.next(s.log, request);
            && t.At(pid).Idle? && t.lock == Free && t.log == s.log + [row] && t.file == s.file + store.line(row)
            && t.granted == s.granted + [Grant(pid, request)] && t.finished == s.finished
            && forall q: Pid :: q != pid ==> t.At(q) == s.At(q)
  {
    var take := TakeLock(store, s, pid, request);
    var locked := Run(store, s, take);
    InvIsKept(store, s, take);
    var finish := FinishWrite(store, locked, pid);
    actions := take + finish;
    RunsJoin(store, s, take, finish);
  }

  /** Unless a writer has the lock, an idle process can read, and gets the whole file. */
  lemma ReadCompletes<Q(!new), R(!new)>(store: Store<Q, R>, s: State<Q, R>, pid: Pid) returns (actions: seq<Action<Q>>)
    requires store.Lawful() && Inv(store, s) && !s.lock.Exclusive? && s.At(pid).Idle?
    ensures var t := Run(store, s, actions);
            && t.At(pid).Idle? && t.lock == s.lock && t.file == s.file && t.log == s.log && t.granted == s.granted
            && t.finished == s.finished + [Read(true, s.file, |s.log|, None)]
  {
    var a, b := RequestRead(pid), LockShared(pid);
    var s1 := Step(store, s, a);
    var s2 := Step(store, s1, b);
    RunsJoin(store, s, [a], [b]);
    RunOne(store, s, a);
    RunOne(store, s1, b);
    assert Run(store, s, [a] + [b]) == s2;
    InvIsKept(store, s, [a] + [b]);
    assert pid !in (if s.lock.Shared? then s.lock.readers else {}) by {
      assert s.At(pid).Reading? <==> s.lock.Shared? && pid in s.lock.readers;
    }
    var rest := FinishOneRead(store, s2, pid);
    actions := [a] + [b] + rest;
    RunsJoin(store, s, [a] + [b], rest);
    assert s2.lock.readers - {pid} == if s.lock.Shared? then s.lock.readers else {};
  }

  /**
   Nothing an append needs can be blocked for good: from every state of every run, whoever holds the
   lock, any idle process can be brought to complete any append, behind the one in flight if there is one.
   */
  lemma EveryAppendCanComplete<Q(!new), R(!new)>(
      store: Store<Q, R>, actions: seq<Action<Q>>, pid: Pid, request: Q) returns (more: seq<Action<Q>>)
    requires store.Lawful() && Run(store, Init(store), actions).At(pid).Idle?
    ensures var s, t := Run(store, Init(store), actions), Run(store, Init(store), actions + more);
            var before := s.log + Owed(store, s);
            && t.At(pid).Idle? && t.lock == Free && t.log == before + [store.next(before, request)]
            && t.granted == s.granted + [Grant(pid, request)] && t.file == store.image(t.log)
  {
    var s := Run(store, Init(store), actions);
    RunKeepsInv(store, actions);
    var free := LockCanBeFreed(store, s);
    InvIsKept(store, s, free);
    var append := AppendCompletes(store, Run(store, s, free), pid, request);
    InvIsKept(store, Run(store, s, free), append);
    RunsJoin(store, s, free, append);
    RunsJoin(store, Init(store), actions, free + append);
    more := free + append;
  }

  /** The shared lock is needed: without it, a read can end after any number of bytes of a row. */
  lemma UnlockedReadSeesTornRow<Q(!new), R(!new)>(store: Store<Q, R>, request: Q, n: nat)
    returns (actions: seq<Action<Q>>)
    requires store.Lawful() && n <= |store.line(store.next([], request))|
    ensures var row := store.next([], request);
            Run(store, Init(store), actions).finished ==
            [Read(false, store.image([]) + store.line(row)[..n], 0, Some(Pending(row, n)))]
  {
    actions := WriteSome(store, request, n);
    actions := PeekNow(store, actions, 1);
  }

  /** A reader that takes no lock can start and end a read at any moment. */
  lemma PeekNow<Q(!new), R(!new)>(store: Store<Q, R>, actions: seq<Action<Q>>, pid: Pid)
    returns (more: seq<Action<Q>>)
    requires Run(store, Init(store), actions).At(pid).Idle? && Run(store, Init(store), actions).lock != Exclusive(pid)
    ensures var s := Run(store, Init(store), actions);
            Run(store, Init(store), more).finished == s.finished + [Read(false, s.file, |s.log|, s.InFlight())]
  {
    var s := Run(store, Init(store), actions);
    PeekSteps(store, s, pid);
    more := AndThen(store, actions, StartPeek(pid));
    more := AndThen(store, more, PeekMore(pid, |s.file|));
    more := AndThen(store, more, EndPeek(pid));
  }

  lemma PeekSteps<Q(!new), R(!new)>(store: Store<Q, R>, s: State<Q, R>, pid: Pid)
    requires s.At(pid).Idle? && s.lock != Exclusive(pid)
    ensures var s' := Step(store, Step(store, Step(store, s, StartPeek(pid)), PeekMore(pid, |s.file|)), EndPeek(pid));
            s'.finished == s.finished + [Read(false, s.file, |s.log|, s.InFlight())]
  {
    assert s.file[..|s.file|] == s.file;
  }

  lemma WriteSome<Q(!new), R(!new)>(store: Store<Q, R>, request: Q, n: nat) returns (actions: seq<Action<Q>>)
    requires store.Lawful() && n <= |store.line(store.next([], request))|
    ensures var s, row := Run(store, Init(store), actions), store.next([], request);
            && s.file == store.image([]) + store.line(row)[..n]
            && s.log == [] && s.finished == [] && s.InFlight() == Some(Pending(row, n))
            && s.At(1).Idle? && s.lock == Exclusive(0)
  {
    actions := [];
    actions := AndThen(store, actions, RequestWrite(0, request));
    actions := AndThen(store, actions, LockExclusive(0));
    actions := AndThen(store, actions, BuildRow(0));
    actions := AndThen(store, actions, Flush(0, n));
  }

  lemma AndThen<Q(!new), R(!new)>(store: Store<Q, R>, actions: seq<Action<Q>>, a: Action<Q>)
    returns (more: seq<Action<Q>>)
    ensures Run(store, Init(store), more) == Step(store, Run(store, Init(store), actions), a)
  {
    more := actions + [a];
    assert more[..|actions|] == actions;
  }
}
