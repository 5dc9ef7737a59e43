/** Saving with retry: on a failed precondition, back off, reload the file, let the caller's
    merge function combine its changes with what is stored, and try again under the reloaded
    ETag, up to a given number of retries. */
module SymlinksRetry {
  import opened Errors
  import opened SymlinksFile
  import opened Backend
  import opened SymlinksStore
  import Text

  // ---------------------------------------------------------------------------
  // Backoff, in nanoseconds as Go's time.Duration

  const Millisecond := 1_000_000
  const Second := 1_000_000_000
  const InitialBackoff := 50 * Millisecond
  const MaxBackoff := 2 * Second

  /** The wait after a wait of `b`: doubled, capped at the maximum. The product of the float64
      conversion is exact at these magnitudes, so it is taken on integers. */
  function NextBackoff(b: int): int
  {
    var n := b * 2;
    if n > MaxBackoff then MaxBackoff else n
  }

  function Pow2(i: nat): (p: nat)
    ensures p >= 1
  {
    if i == 0 then 1 else 2 * Pow2(i - 1)
  }

  /** The wait before retry `i` (counting from 0), in closed form: 50ms times 2^i, at most 2s. */
  function Backoff(i: nat): (b: int)
    ensures InitialBackoff <= b <= MaxBackoff
  {
    var b := InitialBackoff * Pow2(i);
    if b > MaxBackoff then MaxBackoff else b
  }

  /** Doubling and capping after each wait yields the closed form. */
  lemma NextBackoffStep(i: nat)
    ensures NextBackoff(Backoff(i)) == Backoff(i + 1)
  {
    assert InitialBackoff * Pow2(i + 1) == 2 * (InitialBackoff * Pow2(i));
  }

  /** The waits are 50ms, 100ms, 200ms, 400ms, 800ms, 1.6s, then 2s from the seventh on. */
  lemma {:induction false} BackoffSchedule(i: nat)
    ensures i <= 5 ==> Backoff(i) == InitialBackoff * Pow2(i)
    ensures i >= 6 ==> Backoff(i) == MaxBackoff
  {
    if i > 6 {
      BackoffSchedule(i - 1);
      assert Pow2(i) == 2 * Pow2(i - 1);
      assert InitialBackoff * Pow2(i) == 2 * (InitialBackoff * Pow2(i - 1));
    } else if i > 0 {
      assert Pow2(1) == 2 && Pow2(2) == 4 && Pow2(3) == 8 && Pow2(4) == 16;
      assert Pow2(5) == 32 && Pow2(6) == 64;
    }
  }

  // ---------------------------------------------------------------------------
  // The retry loop

  /** SymlinksMergeFunc: given the document now stored, the document to save, or an error. */
  type MergeFunc = Document -> Result<Document>

  /** The fixed arguments of a SaveSymlinksFileWithRetry call. */
  datatype Request = Request(dirKey: string, fileName: string, merge: MergeFunc, maxRetries: int)

  /** One SaveSymlinksFile call of the loop: the document, the ETag it was made with, and
      what the call returned. */
  datatype Attempt = Attempt(data: Document, etag: string, saved: Result<string>)

  /** What the loop did: its save attempts, the waits it slept, what each reload returned,
      and the documents it handed to the merge function. */
  datatype Trace = Trace(attempts: seq<Attempt>, sleeps: seq<int>, reloads: seq<Result<Loaded>>, merged: seq<Document>)

  /** Which return statement of the loop was taken. */
  datatype Stop = Saved | SaveFailed | RetriesExceeded | ReloadFailed | MergeFailed | Fallthrough

  datatype Run = Run(result: Result<string>, store: Store, trace: Trace, stop: Stop)

  function ConflictPrefix(maxRetries: int): string
  {
    "symlinks file conflict: " + "max retries" + " (" + Text.IntToString(maxRetries) + ") " + "exceeded" + ": "
  }

  const ReloadPrefix := "failed to reload symlinks file during retry: "
  const MergePrefix := "merge function failed: "
  const UnexpectedError := Message("symlinks file save failed unexpectedly")


  /** The two store operations the loop performs on the backend state: SaveSymlinksFile of a
      document under an ETag, and LoadSymlinksFile. */
  datatype Ops = Ops(save: (Store, Document, string) -> (Result<string>, Store), load: Store -> (Result<Loaded>, Store))

  /** The store operations on the symlinks file of one directory. */
  function StoreOps(dirKey: string, fileName: string): Ops
  {
    Ops((st: Store, d: Document, e: string) => Save(st, dirKey, fileName, d, e), (st: Store) => Load(st, dirKey, fileName))
  }

  /** An iteration either returns or carries on with a merged document and a reloaded ETag. */
  datatype StepResult = Done(run: Run) | Continue(store: Store, next: Document, etag: string, trace: Trace)

  /** One iteration of the loop body: a save, then what follows from its outcome. */
  function Step(ops: Ops, st: Store, req: Request, current: Document, etag: string, attempt: nat, backoff: int, trace: Trace): StepResult
  {
    var (saved, st1) := ops.save(st, current, etag);
    AfterSave(ops, st1, req, current, etag, attempt, backoff, trace, saved)
  }

  /** Return on success, on an error that is not a conflict, or on a conflict with no retry
      left; otherwise wait and reload. */
  function AfterSave(ops: Ops, st1: Store, req: Request, current: Document, etag: string, attempt: nat, backoff: int, trace: Trace,
                     saved: Result<string>): StepResult
  {
    var trace1 := trace.(attempts := trace.attempts + [Attempt(current, etag, saved)]);
    if saved.Ok? then
      Done(Run(saved, st1, trace1, Saved))
    else if !IsPreconditionFailed(saved.error) then
      Done(Run(saved, st1, trace1, SaveFailed))
    else if attempt >= req.maxRetries then
      Done(Run(Err(Wrap(ConflictPrefix(req.maxRetries), saved.error)), st1, trace1, RetriesExceeded))
    else
      var (loaded, st2) := ops.load(st1);
      AfterLoad(st2, req, Waited(trace, current, etag, saved, backoff), loaded)
  }

  /** What the loop goes on from after a reload that did not fail: the stored document and
      its ETag, or a fresh document and no ETag when the file is missing. */
  function Reloaded(loaded: Result<Loaded>): Loaded
  {
    if loaded.Ok? then loaded.value else Loaded(NewSymlinksFileData(), "")
  }

  /** A missing file reloads as a fresh document without an ETag; any other reload error
      ends the run; otherwise the merge function decides what to save next. */
  function AfterLoad(st2: Store, req: Request, trace2: Trace, loaded: Result<Loaded>): StepResult
  {
    var trace3 := trace2.(reloads := trace2.reloads + [loaded]);
    if loaded.Err? && !IsNotExist(loaded.error) then
      Done(Run(Err(Wrap(ReloadPrefix, loaded.error)), st2, trace3, ReloadFailed))
    else
      var cloud := Reloaded(loaded);
      var trace4 := trace3.(merged := trace3.merged + [cloud.data]);
      match req.merge(cloud.data)
      case Err(e) => Done(Run(Err(Wrap(MergePrefix, e)), st2, trace4, MergeFailed))
      case Ok(m) => Continue(st2, m, cloud.etag, trace4)
  }

  /** The loop from iteration `attempt` on, with the document, ETag and wait it has reached. */
  function RetryFrom(ops: Ops, st: Store, req: Request, current: Document, etag: string, attempt: nat, backoff: int, trace: Trace): Run
    decreases req.maxRetries - attempt
  {
    if attempt > req.maxRetries then
      Run(Err(UnexpectedError), st, trace, Fallthrough)
    else
      match Step(ops, st, req, current, etag, attempt, backoff, trace)
      case Done(run) => run
      case Continue(st2, m, etag2, trace2) =>
        assert attempt < req.maxRetries;
        RetryFrom(ops, st2, req, m, etag2, attempt + 1, NextBackoff(backoff), trace2)
  }

  const NoTrace := Trace([], [], [], [])

  /** SaveSymlinksFileWithRetry from its start, on the directory's symlinks file. */
  function Retry(st: Store, req: Request, data: Document, expectedETag: string): Run
  {
    RetryFrom(StoreOps(req.dirKey, req.fileName), st, req, data, expectedETag, 0, InitialBackoff, NoTrace)
  }

  /** The body of the loop: save, and on a conflict with retries left back off, reload and
      merge. The waits are recorded in the trace instead of slept. */
  method Iteration(cloud: MockBackend, req: Request, current: Document, etag: string, attempt: nat, backoff: int, trace: Trace)
    returns (s: StepResult)
    modifies cloud
    ensures s == Step(StoreOps(req.dirKey, req.fileName), old(cloud.State()), req, current, etag, attempt, backoff, trace)
    ensures (if s.Done? then s.run.store else s.store) == cloud.State()
  {
    var saved := SaveSymlinksFile(cloud, req.dirKey, req.fileName, current, etag);
    var trace1 := trace.(attempts := trace.attempts + [Attempt(current, etag, saved)]);
    if saved.Ok? {
      return Done(Run(saved, cloud.State(), trace1, Saved));
    }
    if !IsPreconditionFailed(saved.error) {
      return Done(Run(saved, cloud.State(), trace1, SaveFailed));
    }
    if attempt >= req.maxRetries {
      return Done(Run(Err(Wrap(ConflictPrefix(req.maxRetries), saved.error)), cloud.State(), trace1, RetriesExceeded));
    }
    var trace2 := trace1.(sleeps := trace1.sleeps + [backoff]);
    var loaded := LoadSymlinksFile(cloud, req.dirKey, req.fileName);
    var trace3 := trace2.(reloads := trace2.reloads + [loaded]);
    var cloudData := NewSymlinksFileData();
    var cloudETag := "";
    if loaded.Err? {
      if !IsNotExist(loaded.error) {
        return Done(Run(Err(Wrap(ReloadPrefix, loaded.error)), cloud.State(), trace3, ReloadFailed));
      }
    } else {
      cloudData := loaded.value.data;
      cloudETag := loaded.value.etag;
    }
    var trace4 := trace3.(merged := trace3.merged + [cloudData]);
    var merged := req.merge(cloudData);
    if merged.Err? {
      return Done(Run(Err(Wrap(MergePrefix, merged.error)), cloud.State(), trace4, MergeFailed));
    }
    return Continue(cloud.State(), merged.value, cloudETag, trace4);
  }

  method SaveSymlinksFileWithRetry(cloud: MockBackend, dirKey: string, fileName: string, data: Document,
                                   expectedETag: string, merge: MergeFunc, maxRetries: int)
    returns (r: Result<string>, trace: Trace)
    modifies cloud
    ensures var run := Retry(old(cloud.State()), Request(dirKey, fileName, merge, maxRetries), data, expectedETag);
      r == run.result && cloud.State() == run.store && trace == run.trace
  {
    var req := Request(dirKey, fileName, merge, maxRetries);
    ghost var ops := StoreOps(dirKey, fileName);
    ghost var goal := Retry(cloud.State(), req, data, expectedETag);
    var currentData := data;
    var currentETag := expectedETag;
    var backoff := InitialBackoff;
    var attempt: nat := 0;
    trace := NoTrace;
    while attempt <= maxRetries
      invariant RetryFrom(ops, cloud.State(), req, currentData, currentETag, attempt, backoff, trace) == goal
      decreases maxRetries - attempt
    {
      var step := Iteration(cloud, req, currentData, currentETag, attempt, backoff, trace);
      match step
      case Done(run) =>
        r, trace := run.result, run.trace;
        return;
      case Continue(_, next, nextETag, nextTrace) =>
        currentData, currentETag, trace := next, nextETag, nextTrace;
        backoff := NextBackoff(backoff);
        attempt := attempt + 1;
    }
    r := Err(UnexpectedError);
  }

  // ---------------------------------------------------------------------------
  // The bookkeeping of the loop, for any store operations

  /** A save refused because its precondition failed. */
  predicate Conflicted(saved: Result<string>)
  {
    saved.Err? && IsPreconditionFailed(saved.error)
  }

  /** A reload the loop carries on from: it found the file, or found that there is none. */
  predicate Recovered(loaded: Result<Loaded>)
  {
    loaded.Ok? || IsNotExist(loaded.error)
  }

  /** Retry `i` was begun because attempt `i` conflicted, and began with the scheduled wait. */
  ghost predicate Retried(t: Trace, i: int)
    requires 0 <= i < |t.attempts| && i < |t.sleeps|
  {
    Conflicted(t.attempts[i].saved) && t.sleeps[i] == Backoff(i)
  }

  /** Reload `i` was carried on from, and the merge function was handed what it found. */
  ghost predicate MergedReload(t: Trace, i: int)
    requires 0 <= i < |t.reloads| && i < |t.merged|
  {
    Recovered(t.reloads[i]) && t.merged[i] == Reloaded(t.reloads[i]).data
  }

  /** Attempt `i + 1` saved the merge function's answer for reload `i`, under the ETag that
      reload found. */
  ghost predicate Followed(req: Request, t: Trace, i: int)
    requires 0 <= i < |t.reloads| && i < |t.merged| && i + 1 < |t.attempts|
  {
    req.merge(t.merged[i]) == Ok(t.attempts[i + 1].data) && t.attempts[i + 1].etag == Reloaded(t.reloads[i]).etag
  }

  /** The record of the retries in `t`: every wait followed a conflict of the attempt before
      it and has the scheduled length, every merge was of what a reload that did not fail
      found, and every attempt after the first saved such a merge under the reloaded ETag. */
  ghost predicate RunHistory(req: Request, t: Trace)
  {
    && |t.reloads| == |t.sleeps| && |t.merged| <= |t.sleeps| <= |t.attempts| <= |t.merged| + 1
    && (forall i :: 0 <= i < |t.sleeps| ==> Retried(t, i))
    && (forall i :: 0 <= i < |t.merged| ==> MergedReload(t, i))
    && (forall i :: 0 <= i < |t.attempts| - 1 ==> Followed(req, t, i))
  }

  /** What holds at the head of iteration `attempt`, about to save `current` under `etag`:
      one attempt, wait, reload and merge per earlier iteration, recorded as above, and
      `current` is the merge of the last reload, to be saved under the ETag it found. */
  ghost predicate Consistent(req: Request, current: Document, etag: string, attempt: nat, backoff: int, t: Trace)
  {
    && |t.attempts| == attempt && |t.sleeps| == attempt && |t.reloads| == attempt && |t.merged| == attempt
    && backoff == Backoff(attempt)
    && RunHistory(req, t)
    && (attempt > 0 ==> req.merge(t.merged[attempt - 1]) == Ok(current) && etag == Reloaded(t.reloads[attempt - 1]).etag)
  }

  /** How many attempts, waits, reloads and merges a run made, by the way it ended. */
  ghost predicate RunCounts(req: Request, run: Run)
  {
    var t := run.trace;
    var n := |t.attempts|;
    var r := |t.sleeps|;
    && (run.result.Ok? <==> run.stop == Saved)
    && run.stop != Fallthrough
    && 1 <= n <= req.maxRetries + 1
    && (run.stop in {Saved, SaveFailed, RetriesExceeded} ==> n == r + 1 == |t.merged| + 1 == |t.reloads| + 1)
    && (run.stop == ReloadFailed ==> n == r == |t.reloads| == |t.merged| + 1)
    && (run.stop == MergeFailed ==> n == r == |t.reloads| == |t.merged|)
  }

  /** What a run returns, by the way it ended: the last save's own result, the conflict
      wrapped once the retries are used up, or the reload or merge error that stopped it. */
  ghost predicate RunEnd(req: Request, run: Run)
    requires RunCounts(req, run)
  {
    var t := run.trace;
    var n := |t.attempts|;
    && (run.stop == Saved ==> run.result == t.attempts[n - 1].saved)
    && (run.stop == SaveFailed ==> run.result == t.attempts[n - 1].saved && !IsPreconditionFailed(run.result.error))
    && (run.stop == RetriesExceeded ==>
          && n == req.maxRetries + 1 && Conflicted(t.attempts[n - 1].saved)
          && run.result == Err(Wrap(ConflictPrefix(req.maxRetries), t.attempts[n - 1].saved.error))
          && IsPreconditionFailed(run.result.error)
          && Text.Contains(run.result.error.Text(), "max retries")
          && Text.Contains(run.result.error.Text(), "exceeded"))
    && (run.stop == ReloadFailed ==>
          && t.reloads[n - 1].Err? && !IsNotExist(t.reloads[n - 1].error)
          && run.result == Err(Wrap(ReloadPrefix, t.reloads[n - 1].error))
          && Text.HasPrefix(run.result.error.Text(), ReloadPrefix))
    && (run.stop == MergeFailed ==>
          && req.merge(t.merged[n - 1]).Err?
          && run.result == Err(Wrap(MergePrefix, req.merge(t.merged[n - 1]).error))
          && Text.HasPrefix(run.result.error.Text(), MergePrefix))
  }

  /** How a run that made at least one attempt ended: every attempt but the last was refused
      by a conflict, retried after the scheduled wait, reloaded and merged, and the next
      attempt saved the merge under the reloaded ETag; the run returns what RunEnd says. */
  ghost predicate RunShape(req: Request, run: Run)
  {
    RunCounts(req, run) && RunHistory(req, run.trace) && RunEnd(req, run)
  }

  /** Both words of a message built as head, word, middle, word, tail are in it. */
  lemma WordsOfMessage(a: string, b: string, c1: string, n: string, c2: string, d: string, e: string, t: string)
    ensures Text.Contains(a + b + c1 + n + c2 + d + e + t, b)
    ensures Text.Contains(a + b + c1 + n + c2 + d + e + t, d)
  {
    var x := a + b + c1 + n + c2 + d + e + t;
    assert x == a + b + (c1 + n + c2 + d + e + t);
    Text.ContainsMiddle(a, b, c1 + n + c2 + d + e + t);
    assert x == a + b + c1 + n + c2 + d + (e + t);
    Text.ContainsMiddle(a + b + c1 + n + c2, d, e + t);
  }

  /** The error ending a run that ran out of retries still reads as a conflict and says so. */
  lemma ConflictMessage(maxRetries: int, inner: Error)
    requires IsPreconditionFailed(inner)
    ensures var e := Wrap(ConflictPrefix(maxRetries), inner);
      IsPreconditionFailed(e) && Text.Contains(e.Text(), "max retries") && Text.Contains(e.Text(), "exceeded")
  {
    WrapKeepsPreconditionFailed(ConflictPrefix(maxRetries), inner);
    WordsOfMessage("symlinks file conflict: ", "max retries", " (", Text.IntToString(maxRetries), ") ", "exceeded", ": ", inner.Text());
  }

  /** `t` continues `trace` with an attempt that saves `current` under `etag`. */
  ghost predicate Extends(trace: Trace, t: Trace, current: Document, etag: string)
  {
    && trace.attempts < t.attempts && trace.sleeps <= t.sleeps && trace.reloads <= t.reloads && trace.merged <= t.merged
    && t.attempts[|trace.attempts|].data == current && t.attempts[|trace.attempts|].etag == etag
  }

  /** What an iteration promises, for its outcome `r`. */
  ghost predicate StepPost(req: Request, current: Document, etag: string, attempt: nat, backoff: int, trace: Trace, r: StepResult)
  {
    match r
    case Done(run) =>
      RunShape(req, run) && Extends(trace, run.trace, current, etag)
    case Continue(_, next, etag2, t) =>
      && attempt < req.maxRetries
      && Consistent(req, next, etag2, attempt + 1, NextBackoff(backoff), t)
      && Extends(trace, t, current, etag)
  }

  /** A trace consistent at iteration `attempt`, continued by the attempt of that iteration
      and perhaps its wait, reload and merge, is still a record of the retries. */
  lemma HistoryGrows(req: Request, current: Document, etag: string, attempt: nat, backoff: int, trace: Trace, t: Trace)
    requires Consistent(req, current, etag, attempt, backoff, trace)
    requires Extends(trace, t, current, etag)
    requires |t.attempts| == attempt + 1 && |t.reloads| == |t.sleeps| && attempt <= |t.merged| <= |t.sleeps| <= attempt + 1
    requires |t.sleeps| == attempt + 1 ==> Retried(t, attempt)
    requires |t.merged| == attempt + 1 ==> MergedReload(t, attempt)
    ensures RunHistory(req, t)
  {
    forall i | 0 <= i < |t.sleeps|
      ensures Retried(t, i)
    {
      if i < attempt {
        assert Retried(trace, i);
        assert t.attempts[i] == trace.attempts[i] && t.sleeps[i] == trace.sleeps[i];
      }
    }
    forall i | 0 <= i < |t.merged|
      ensures MergedReload(t, i)
    {
      if i < attempt {
        assert MergedReload(trace, i);
        assert t.reloads[i] == trace.reloads[i] && t.merged[i] == trace.merged[i];
      }
    }
    forall i | 0 <= i < attempt
      ensures Followed(req, t, i)
    {
      assert t.reloads[i] == trace.reloads[i] && t.merged[i] == trace.merged[i];
      if i < attempt - 1 {
        assert Followed(req, trace, i);
        assert t.attempts[i + 1] == trace.attempts[i + 1];
      }
    }
  }

  /** The trace of an iteration that conflicted with a retry left, up to its wait. */
  function Waited(trace: Trace, current: Document, etag: string, saved: Result<string>, backoff: int): Trace
  {
    trace.(attempts := trace.attempts + [Attempt(current, etag, saved)], sleeps := trace.sleeps + [backoff])
  }

  lemma ReloadFailedShape(st2: Store, req: Request, current: Document, etag: string, attempt: nat, backoff: int, trace: Trace,
                          saved: Result<string>, loaded: Result<Loaded>)
    requires attempt < req.maxRetries && Conflicted(saved) && !Recovered(loaded)
    requires Consistent(req, current, etag, attempt, backoff, trace)
    ensures StepPost(req, current, etag, attempt, backoff, trace, AfterLoad(st2, req, Waited(trace, current, etag, saved, backoff), loaded))
  {
    var t := Waited(trace, current, etag, saved, backoff).(reloads := trace.reloads + [loaded]);
    var run := Run(Err(Wrap(ReloadPrefix, loaded.error)), st2, t, ReloadFailed);
    assert AfterLoad(st2, req, Waited(trace, current, etag, saved, backoff), loaded) == Done(run);
    assert Retried(t, attempt);
    HistoryGrows(req, current, etag, attempt, backoff, trace, t);
    assert RunCounts(req, run);
    assert t.reloads[attempt] == loaded;
    Text.HasPrefixConcat(ReloadPrefix, loaded.error.Text());
    assert RunEnd(req, run);
  }

  lemma MergeFailedShape(st2: Store, req: Request, current: Document, etag: string, attempt: nat, backoff: int, trace: Trace,
                         saved: Result<string>, loaded: Result<Loaded>, e: Error)
    requires attempt < req.maxRetries && Conflicted(saved) && Recovered(loaded)
    requires req.merge(Reloaded(loaded).data) == Err(e)
    requires Consistent(req, current, etag, attempt, backoff, trace)
    ensures StepPost(req, current, etag, attempt, backoff, trace, AfterLoad(st2, req, Waited(trace, current, etag, saved, backoff), loaded))
  {
    var t := Waited(trace, current, etag, saved, backoff).(reloads := trace.reloads + [loaded],
                                                           merged := trace.merged + [Reloaded(loaded).data]);
    var run := Run(Err(Wrap(MergePrefix, e)), st2, t, MergeFailed);
    assert AfterLoad(st2, req, Waited(trace, current, etag, saved, backoff), loaded) == Done(run);
    assert Retried(t, attempt) && MergedReload(t, attempt);
    HistoryGrows(req, current, etag, attempt, backoff, trace, t);
    assert RunCounts(req, run);
    assert t.merged[attempt] == Reloaded(loaded).data;
    Text.HasPrefixConcat(MergePrefix, e.Text());
    assert RunEnd(req, run);
  }

  lemma MergedShape(st2: Store, req: Request, current: Document, etag: string, attempt: nat, backoff: int, trace: Trace,
                    saved: Result<string>, loaded: Result<Loaded>, m: Document)
    requires attempt < req.maxRetries && Conflicted(saved) && Recovered(loaded)
    requires req.merge(Reloaded(loaded).data) == Ok(m)
    requires Consistent(req, current, etag, attempt, backoff, trace)
    ensures StepPost(req, current, etag, attempt, backoff, trace, AfterLoad(st2, req, Waited(trace, current, etag, saved, backoff), loaded))
  {
    var t := Waited(trace, current, etag, saved, backoff).(reloads := trace.reloads + [loaded],
                                                           merged := trace.merged + [Reloaded(loaded).data]);
    assert AfterLoad(st2, req, Waited(trace, current, etag, saved, backoff), loaded) == Continue(st2, m, Reloaded(loaded).etag, t);
    assert Retried(t, attempt) && MergedReload(t, attempt);
    HistoryGrows(req, current, etag, attempt, backoff, trace, t);
    assert t.merged[attempt] == Reloaded(loaded).data && t.reloads[attempt] == loaded;
    NextBackoffStep(attempt);
  }

  lemma AfterLoadShape(st2: Store, req: Request, current: Document, etag: string, attempt: nat, backoff: int, trace: Trace,
                       saved: Result<string>, loaded: Result<Loaded>)
    requires attempt < req.maxRetries && Conflicted(saved)
    requires Consistent(req, current, etag, attempt, backoff, trace)
    ensures StepPost(req, current, etag, attempt, backoff, trace, AfterLoad(st2, req, Waited(trace, current, etag, saved, backoff), loaded))
  {
    if !Recovered(loaded) {
      ReloadFailedShape(st2, req, current, etag, attempt, backoff, trace, saved, loaded);
    } else {
      match req.merge(Reloaded(loaded).data)
      case Err(e) =>
        MergeFailedShape(st2, req, current, etag, attempt, backoff, trace, saved, loaded, e);
      case Ok(m) =>
        MergedShape(st2, req, current, etag, attempt, backoff, trace, saved, loaded, m);
    }
  }

  /** A run that ends at the save call has one attempt more than the trace before it and
      no new wait, reload or merge. */
  lemma EndedAtSaveShape(st1: Store, req: Request, current: Document, etag: string, attempt: nat, backoff: int, trace: Trace,
                         saved: Result<string>, result: Result<string>, stop: Stop)
    requires attempt <= req.maxRetries
    requires Consistent(req, current, etag, attempt, backoff, trace)
    requires stop == Saved || stop == SaveFailed || stop == RetriesExceeded
    requires stop == Saved ==> saved.Ok? && result == saved
    requires stop == SaveFailed ==> saved.Err? && !IsPreconditionFailed(saved.error) && result == saved
    requires stop == RetriesExceeded ==>
      && attempt == req.maxRetries && Conflicted(saved)
      && result == Err(Wrap(ConflictPrefix(req.maxRetries), saved.error))
      && IsPreconditionFailed(result.error)
      && Text.Contains(result.error.Text(), "max retries") && Text.Contains(result.error.Text(), "exceeded")
    ensures StepPost(req, current, etag, attempt, backoff, trace,
                     Done(Run(result, st1, trace.(attempts := trace.attempts + [Attempt(current, etag, saved)]), stop)))
  {
    var t := trace.(attempts := trace.attempts + [Attempt(current, etag, saved)]);
    var run := Run(result, st1, t, stop);
    HistoryGrows(req, current, etag, attempt, backoff, trace, t);
    assert RunCounts(req, run);
    assert RunEnd(req, run);
  }

  lemma AfterSaveShape(ops: Ops, st1: Store, req: Request, current: Document, etag: string, attempt: nat, backoff: int, trace: Trace,
                       saved: Result<string>)
    requires attempt <= req.maxRetries
    requires Consistent(req, current, etag, attempt, backoff, trace)
    ensures StepPost(req, current, etag, attempt, backoff, trace, AfterSave(ops, st1, req, current, etag, attempt, backoff, trace, saved))
  {
    if saved.Ok? {
      EndedAtSaveShape(st1, req, current, etag, attempt, backoff, trace, saved, saved, Saved);
    } else if !IsPreconditionFailed(saved.error) {
      EndedAtSaveShape(st1, req, current, etag, attempt, backoff, trace, saved, saved, SaveFailed);
    } else if attempt >= req.maxRetries {
      ConflictMessage(req.maxRetries, saved.error);
      EndedAtSaveShape(st1, req, current, etag, attempt, backoff, trace, saved, Err(Wrap(ConflictPrefix(req.maxRetries), saved.error)),
                       RetriesExceeded);
    } else {
      var (loaded, st2) := ops.load(st1);
      AfterLoadShape(st2, req, current, etag, attempt, backoff, trace, saved, loaded);
    }
  }

  /** One iteration keeps the bookkeeping consistent, or ends the run in the shape above. */
  lemma StepShape(ops: Ops, st: Store, req: Request, current: Document, etag: string, attempt: nat, backoff: int, trace: Trace)
    requires attempt <= req.maxRetries
    requires Consistent(req, current, etag, attempt, backoff, trace)
    ensures StepPost(req, current, etag, attempt, backoff, trace, Step(ops, st, req, current, etag, attempt, backoff, trace))
  {
    var (saved, st1) := ops.save(st, current, etag);
    AfterSaveShape(ops, st1, req, current, etag, attempt, backoff, trace, saved);
  }

  /** Continuing a trace by an iteration and then by a run continues it by the run. */
  lemma TraceExtends(trace: Trace, t: Trace, final: Trace, current: Document, etag: string)
    requires Extends(trace, t, current, etag)
    requires t.attempts < final.attempts && t.sleeps <= final.sleeps && t.reloads <= final.reloads && t.merged <= final.merged
    ensures Extends(trace, final, current, etag)
  {
    assert final.attempts[|trace.attempts|] == t.attempts[|trace.attempts|];
  }

  lemma {:induction false} RetryFromShape(ops: Ops, st: Store, req: Request, current: Document, etag: string, attempt: nat, backoff: int, trace: Trace)
    requires attempt <= req.maxRetries
    requires Consistent(req, current, etag, attempt, backoff, trace)
    ensures var run := RetryFrom(ops, st, req, current, etag, attempt, backoff, trace);
      RunShape(req, run) && Extends(trace, run.trace, current, etag)
    decreases req.maxRetries - attempt
  {
    StepShape(ops, st, req, current, etag, attempt, backoff, trace);
    match Step(ops, st, req, current, etag, attempt, backoff, trace)
    case Done(run) =>
    case Continue(st2, m, etag2, t) =>
      RetryFromShape(ops, st2, req, m, etag2, attempt + 1, NextBackoff(backoff), t);
      var run := RetryFrom(ops, st2, req, m, etag2, attempt + 1, NextBackoff(backoff), t);
      assert RetryFrom(ops, st, req, current, etag, attempt, backoff, trace) == run;
      TraceExtends(trace, t, run.trace, current, etag);
  }

  /** The run as a whole: with no retries allowed below zero the loop body never runs and the
      function falls through; otherwise the first attempt saves the caller's document under
      the caller's ETag and the run has the shape above. */
  lemma RetryShape(st: Store, req: Request, data: Document, expectedETag: string)
    ensures var run := Retry(st, req, data, expectedETag);
      && (req.maxRetries < 0 ==> run == Run(Err(UnexpectedError), st, NoTrace, Fallthrough))
      && (req.maxRetries >= 0 ==>
            RunShape(req, run) && run.trace.attempts[0].data == data && run.trace.attempts[0].etag == expectedETag)
  {
    if req.maxRetries >= 0 {
      RetryFromShape(StoreOps(req.dirKey, req.fileName), st, req, data, expectedETag, 0, InitialBackoff, NoTrace);
    }
  }

  /** Only a conflict makes the loop go on: every attempt of a run but the last was refused
      because its precondition failed. */
  lemma EarlierAttemptsConflicted(req: Request, run: Run)
    requires RunShape(req, run)
    ensures forall i :: 0 <= i < |run.trace.attempts| - 1 ==> Conflicted(run.trace.attempts[i].saved)
  {
    forall i | 0 <= i < |run.trace.attempts| - 1
      ensures Conflicted(run.trace.attempts[i].saved)
    {
      assert Retried(run.trace, i);
    }
  }

  // ---------------------------------------------------------------------------
  // What the loop does to the store

  /** `a` and `b` have the same failures set and agree on every key but `key`. */
  ghost predicate SameElsewhere(a: Store, b: Store, key: string)
  {
    && a.faults == b.faults
    && (forall k :: k != key ==> (k in a.objects <==> k in b.objects))
    && (forall k :: k != key && k in a.objects && k in b.objects ==> a.objects[k] == b.objects[k])
  }

  /** Store operations that keep the failures and touch no key but `key`. */
  ghost predicate Confined(ops: Ops, key: string)
  {
    && (forall st, d, e :: SameElsewhere(ops.save(st, d, e).1, st, key))
    && (forall st :: SameElsewhere(ops.load(st).1, st, key))
  }

  function LastAttempt(t: Trace): Attempt
    requires |t.attempts| > 0
  {
    t.attempts[|t.attempts| - 1]
  }

  lemma StepConfined(ops: Ops, key: string, st: Store, req: Request, current: Document, etag: string, attempt: nat, backoff: int, trace: Trace)
    requires Confined(ops, key)
    ensures match Step(ops, st, req, current, etag, attempt, backoff, trace)
      case Done(run) =>
        && SameElsewhere(run.store, st, key)
        && (run.stop == Saved ==>
              (run.result, run.store) == ops.save(st, current, etag)
              && run.trace.attempts == trace.attempts + [Attempt(current, etag, run.result)])
      case Continue(st2, _, _, _) => SameElsewhere(st2, st, key)
  {
    var (saved, st1) := ops.save(st, current, etag);
    assert SameElsewhere(st1, st, key);
    if !saved.Ok? && IsPreconditionFailed(saved.error) && attempt < req.maxRetries {
      var (loaded, st2) := ops.load(st1);
      assert SameElsewhere(st2, st1, key);
    }
  }

  /** However the run ends, no key but `key` has changed and the failures set are the same. */
  lemma {:induction false} RetryFromConfined(ops: Ops, key: string, st: Store, req: Request, current: Document, etag: string,
                                             attempt: nat, backoff: int, trace: Trace)
    requires Confined(ops, key)
    ensures SameElsewhere(RetryFrom(ops, st, req, current, etag, attempt, backoff, trace).store, st, key)
    decreases req.maxRetries - attempt
  {
    if attempt <= req.maxRetries {
      StepConfined(ops, key, st, req, current, etag, attempt, backoff, trace);
      match Step(ops, st, req, current, etag, attempt, backoff, trace)
      case Done(run) =>
      case Continue(st2, m, etag2, t) =>
        RetryFromConfined(ops, key, st2, req, m, etag2, attempt + 1, NextBackoff(backoff), t);
        assert RetryFrom(ops, st, req, current, etag, attempt, backoff, trace)
          == RetryFrom(ops, st2, req, m, etag2, attempt + 1, NextBackoff(backoff), t);
    }
  }

  /** Store operations under which a successful save of a non-empty document, from a store
      with the failures `f` set, is what the next load returns. */
  ghost predicate LoadsWhatItSaves(ops: Ops, f: Faults)
  {
    forall s: Store, d, e :: s.faults == f && !IsEmpty(d) && ops.save(s, d, e).0.Ok? ==>
      ops.load(ops.save(s, d, e).1).0 == Ok(Loaded(d, ops.save(s, d, e).0.value))
  }

  /** A run that succeeded ended with the successful save of its last attempt, so a load of
      the final store returns that attempt's document. */
  lemma {:induction false} RetryFromSavedIsLoaded(ops: Ops, key: string, st: Store, req: Request, current: Document, etag: string,
                                                  attempt: nat, backoff: int, trace: Trace)
    requires Confined(ops, key) && LoadsWhatItSaves(ops, st.faults)
    ensures var run := RetryFrom(ops, st, req, current, etag, attempt, backoff, trace);
      run.stop == Saved ==>
        |run.trace.attempts| > 0 && run.result.Ok?
        && (!IsEmpty(LastAttempt(run.trace).data) ==>
              ops.load(run.store).0 == Ok(Loaded(LastAttempt(run.trace).data, run.result.value)))
    decreases req.maxRetries - attempt
  {
    if attempt <= req.maxRetries {
      StepConfined(ops, key, st, req, current, etag, attempt, backoff, trace);
      match Step(ops, st, req, current, etag, attempt, backoff, trace)
      case Done(run) =>
        if run.stop == Saved {
          assert LastAttempt(run.trace) == Attempt(current, etag, run.result);
        }
      case Continue(st2, m, etag2, t) =>
        RetryFromSavedIsLoaded(ops, key, st2, req, m, etag2, attempt + 1, NextBackoff(backoff), t);
        assert RetryFrom(ops, st, req, current, etag, attempt, backoff, trace)
          == RetryFrom(ops, st2, req, m, etag2, attempt + 1, NextBackoff(backoff), t);
    }
  }

  /** The directory's store operations are confined to its symlinks file. */
  lemma StoreOpsConfined(dirKey: string, fileName: string)
    ensures Confined(StoreOps(dirKey, fileName), GetSymlinksFilePath(dirKey, fileName))
  {
    var ops := StoreOps(dirKey, fileName);
    var key := GetSymlinksFilePath(dirKey, fileName);
    forall st, d, e
      ensures SameElsewhere(ops.save(st, d, e).1, st, key)
    {
      assert ops.save(st, d, e) == Save(st, dirKey, fileName, d, e);
    }
    forall st
      ensures SameElsewhere(ops.load(st).1, st, key)
    {
      assert ops.load(st) == Load(st, dirKey, fileName);
    }
  }

  /** SaveSymlinksFileWithRetry changes no object but the directory's symlinks file. */
  lemma RetryTouchesOnlyItsFile(st: Store, req: Request, data: Document, expectedETag: string)
    ensures SameElsewhere(Retry(st, req, data, expectedETag).store, st, GetSymlinksFilePath(req.dirKey, req.fileName))
  {
    StoreOpsConfined(req.dirKey, req.fileName);
    RetryFromConfined(StoreOps(req.dirKey, req.fileName), GetSymlinksFilePath(req.dirKey, req.fileName),
                      st, req, data, expectedETag, 0, InitialBackoff, NoTrace);
  }

  /** The directory's store operations load what they save, when gets and reads do not fail. */
  lemma StoreOpsLoadWhatTheySave(dirKey: string, fileName: string, f: Faults)
    requires f.get.None? && f.read.None?
    ensures LoadsWhatItSaves(StoreOps(dirKey, fileName), f)
  {
    var ops := StoreOps(dirKey, fileName);
    forall s: Store, d, e | s.faults == f && !IsEmpty(d) && ops.save(s, d, e).0.Ok?
      ensures ops.load(ops.save(s, d, e).1).0 == Ok(Loaded(d, ops.save(s, d, e).0.value))
    {
      assert ops.save(s, d, e) == Save(s, dirKey, fileName, d, e);
      LoadAfterSave(s, dirKey, fileName, d, e);
      assert ops.load(ops.save(s, d, e).1) == Load(Save(s, dirKey, fileName, d, e).1, dirKey, fileName);
    }
  }

  /** After a successful run the file holds the last document saved, and when that is
      non-empty the next load returns it with the ETag the run returned. */
  lemma RetrySavedIsLoaded(st: Store, req: Request, data: Document, expectedETag: string)
    requires st.faults.get.None? && st.faults.read.None?
    ensures var run := Retry(st, req, data, expectedETag);
      run.stop == Saved ==>
        |run.trace.attempts| > 0 && run.result.Ok?
        && (!IsEmpty(LastAttempt(run.trace).data) ==>
              Load(run.store, req.dirKey, req.fileName).0 == Ok(Loaded(LastAttempt(run.trace).data, run.result.value)))
  {
    var ops := StoreOps(req.dirKey, req.fileName);
    var run := Retry(st, req, data, expectedETag);
    StoreOpsConfined(req.dirKey, req.fileName);
    StoreOpsLoadWhatTheySave(req.dirKey, req.fileName, st.faults);
    RetryFromSavedIsLoaded(ops, GetSymlinksFilePath(req.dirKey, req.fileName), st, req, data, expectedETag, 0, InitialBackoff, NoTrace);
    assert ops.load(run.store) == Load(run.store, req.dirKey, req.fileName);
  }

  // ---------------------------------------------------------------------------
  // A conflict that never clears

  /** No object at `key`, and the failures `f` set. */
  ghost predicate Stuck(s: Store, key: string, f: Faults)
  {
    s.faults == f && key !in s.objects
  }

  /** Every save of a non-empty document conflicts and every load finds nothing, and both
      leave the store stuck. */
  ghost predicate AlwaysConflicts(ops: Ops, key: string, f: Faults)
  {
    && (forall s, d, e :: Stuck(s, key, f) && !IsEmpty(d) ==>
          (ops.save(s, d, e).0.Err? && IsPreconditionFailed(ops.save(s, d, e).0.error) && Stuck(ops.save(s, d, e).1, key, f)))
    && (forall s :: Stuck(s, key, f) ==>
          (ops.load(s).0 == Ok(Loaded(NewSymlinksFileData(), "")) && Stuck(ops.load(s).1, key, f)))
  }

  lemma {:induction false} RetryFromConflicts(ops: Ops, key: string, f: Faults, st: Store, req: Request, current: Document,
                                              etag: string, attempt: nat, backoff: int, trace: Trace)
    requires AlwaysConflicts(ops, key, f) && Stuck(st, key, f)
    requires forall d :: req.merge(d).Ok? && !IsEmpty(req.merge(d).value)
    requires !IsEmpty(current) && attempt <= req.maxRetries
    ensures RetryFrom(ops, st, req, current, etag, attempt, backoff, trace).stop == RetriesExceeded
    decreases req.maxRetries - attempt
  {
    var (saved, st1) := ops.save(st, current, etag);
    if attempt < req.maxRetries {
      var (loaded, st2) := ops.load(st1);
      var empty := NewSymlinksFileData();
      var m := req.merge(empty).value;
      var trace3 := Waited(trace, current, etag, saved, backoff).(reloads := trace.reloads + [loaded],
                                                                  merged := trace.merged + [empty]);
      assert Step(ops, st, req, current, etag, attempt, backoff, trace) == Continue(st2, m, "", trace3);
      RetryFromConflicts(ops, key, f, st2, req, m, "", attempt + 1, NextBackoff(backoff), trace3);
    }
  }

  /** With every write refused by a precondition failure and no file to reload, the run
      makes maxRetries + 1 attempts and maxRetries merges and gives up with the conflict error. */
  lemma RetryAlwaysConflicting(st: Store, req: Request, data: Document, expectedETag: string, conflict: Error)
    requires st.faults.put == Some(conflict) && IsPreconditionFailed(conflict) && st.faults.get.None?
    requires GetSymlinksFilePath(req.dirKey, req.fileName) !in st.objects
    requires forall d :: req.merge(d).Ok? && !IsEmpty(req.merge(d).value)
    requires !IsEmpty(data) && req.maxRetries >= 0
    ensures var run := Retry(st, req, data, expectedETag);
      && run.stop == RetriesExceeded && run.result.Err?
      && |run.trace.attempts| == req.maxRetries + 1 && |run.trace.merged| == req.maxRetries
      && Text.Contains(run.result.error.Text(), "max retries") && Text.Contains(run.result.error.Text(), "exceeded")
  {
    var ops := StoreOps(req.dirKey, req.fileName);
    var key := GetSymlinksFilePath(req.dirKey, req.fileName);
    forall s, d, e | Stuck(s, key, st.faults) && !IsEmpty(d)
      ensures ops.save(s, d, e).0.Err? && IsPreconditionFailed(ops.save(s, d, e).0.error) && Stuck(ops.save(s, d, e).1, key, st.faults)
    {
      assert ops.save(s, d, e) == Save(s, req.dirKey, req.fileName, d, e);
    }
    forall s | Stuck(s, key, st.faults)
      ensures ops.load(s).0 == Ok(Loaded(NewSymlinksFileData(), "")) && Stuck(ops.load(s).1, key, st.faults)
    {
      assert ops.load(s) == Load(s, req.dirKey, req.fileName);
    }
    RetryFromConflicts(ops, key, st.faults, st, req, data, expectedETag, 0, InitialBackoff, NoTrace);
    RetryShape(st, req, data, expectedETag);
  }

  // ---------------------------------------------------------------------------
  // The first attempt

  /** A save that succeeds at once is the run's answer; nothing is merged or slept. */
  lemma RetryFirstAttemptSucceeds(st: Store, req: Request, data: Document, expectedETag: string)
    requires req.maxRetries >= 0
    requires Save(st, req.dirKey, req.fileName, data, expectedETag).0.Ok?
    ensures var (saved, st1) := Save(st, req.dirKey, req.fileName, data, expectedETag);
      Retry(st, req, data, expectedETag) == Run(saved, st1, Trace([Attempt(data, expectedETag, saved)], [], [], []), Saved)
  {
  }

  /** An error that is not a precondition failure is returned as it is, without a merge. */
  lemma RetryOtherErrorReturned(st: Store, req: Request, data: Document, expectedETag: string)
    requires req.maxRetries >= 0
    requires var saved := Save(st, req.dirKey, req.fileName, data, expectedETag).0;
      saved.Err? && !IsPreconditionFailed(saved.error)
    ensures var (saved, st1) := Save(st, req.dirKey, req.fileName, data, expectedETag);
      Retry(st, req, data, expectedETag) == Run(saved, st1, Trace([Attempt(data, expectedETag, saved)], [], [], []), SaveFailed)
  {
  }

  /** A backend whose puts fail with an error that is not a conflict, as the network-error
      double's do: the run returns that very error after one attempt, with no wait and no
      merge, and no object has changed. */
  lemma RetryPutFaultReturned(st: Store, req: Request, data: Document, expectedETag: string)
    requires req.maxRetries >= 0 && !IsEmpty(data)
    requires st.faults.put.Some? && !IsPreconditionFailed(st.faults.put.value)
    ensures var run := Retry(st, req, data, expectedETag);
      && run.result == Err(st.faults.put.value) && run.stop == SaveFailed
      && run.store.objects == st.objects
      && run.trace == Trace([Attempt(data, expectedETag, run.result)], [], [], [])
  {
    SaveWritesConditionally(st, req.dirKey, req.fileName, data, expectedETag);
    RetryOtherErrorReturned(st, req, data, expectedETag);
  }

  /** With no retries a conflict ends the run at once, without a merge. */
  lemma RetryZeroRetries(st: Store, req: Request, data: Document, expectedETag: string)
    requires req.maxRetries == 0
    requires var saved := Save(st, req.dirKey, req.fileName, data, expectedETag).0;
      saved.Err? && IsPreconditionFailed(saved.error)
    ensures var run := Retry(st, req, data, expectedETag);
      run.stop == RetriesExceeded && run.result.Err? && run.trace.merged == [] && |run.trace.attempts| == 1
      && Text.Contains(run.result.error.Text(), "max retries")
  {
    RetryShape(st, req, data, expectedETag);
  }

  // ---------------------------------------------------------------------------
  // A file created concurrently

  /** The first iteration when the caller creates the file but it already exists: the
      If-None-Match write fails as a conflict, and the reload finds the stored document and
      its ETag. */
  lemma CreateConflictReloads(st: Store, req: Request, data: Document, existing: Document, t: string)
    requires st.faults == NoFaults && !IsEmpty(data)
    requires var key := GetSymlinksFilePath(req.dirKey, req.fileName);
      key in st.objects && st.objects[key].etag == Some(t) && ParseSymlinksFile(st.objects[key].data) == Ok(existing)
    ensures var ops := StoreOps(req.dirKey, req.fileName);
      var (saved, st1) := ops.save(st, data, "");
      var (loaded, st2) := ops.load(st1);
      && saved == Err(PreconditionFailedError) && IsPreconditionFailed(saved.error)
      && loaded == Ok(Loaded(existing, t))
      && st2.objects == st.objects && st2.faults == NoFaults
  {
    SaveConflict(st, req.dirKey, req.fileName, data, "");
    PreconditionFailedRecognised();
  }

  /** A run whose first save conflicts and whose reload succeeds goes on with the merge of
      the reloaded document, or stops with the merge error. */
  lemma RetryFromReloadsAfterConflict(ops: Ops, st: Store, req: Request, data: Document, existing: Document, t: string)
    requires req.maxRetries >= 1
    requires var (saved, st1) := ops.save(st, data, "");
      saved.Err? && IsPreconditionFailed(saved.error) && ops.load(st1).0 == Ok(Loaded(existing, t))
    ensures var (saved, st1) := ops.save(st, data, "");
      var st2 := ops.load(st1).1;
      var trace3 := Trace([Attempt(data, "", saved)], [InitialBackoff], [Ok(Loaded(existing, t))], [existing]);
      RetryFrom(ops, st, req, data, "", 0, InitialBackoff, NoTrace)
      == match req.merge(existing)
         case Err(e) => Run(Err(Wrap(MergePrefix, e)), st2, trace3, MergeFailed)
         case Ok(m) => RetryFrom(ops, st2, req, m, t, 1, NextBackoff(InitialBackoff), trace3)
  {
    var (saved, st1) := ops.save(st, data, "");
    var st2 := ops.load(st1).1;
    var trace3 := Trace([Attempt(data, "", saved)], [InitialBackoff], [Ok(Loaded(existing, t))], [existing]);
    match req.merge(existing)
    case Err(e) =>
      assert Step(ops, st, req, data, "", 0, InitialBackoff, NoTrace) == Done(Run(Err(Wrap(MergePrefix, e)), st2, trace3, MergeFailed));
    case Ok(m) =>
      assert Step(ops, st, req, data, "", 0, InitialBackoff, NoTrace) == Continue(st2, m, t, trace3);
  }

  /** A merge error after the reload ends the run with the wrapped merge error. */
  lemma RetryMergeFails(st: Store, req: Request, data: Document, existing: Document, t: string, e: Error)
    requires st.faults == NoFaults && !IsEmpty(data) && req.maxRetries >= 1
    requires var key := GetSymlinksFilePath(req.dirKey, req.fileName);
      key in st.objects && st.objects[key].etag == Some(t) && ParseSymlinksFile(st.objects[key].data) == Ok(existing)
    requires req.merge(existing) == Err(e)
    ensures var run := Retry(st, req, data, "");
      && run.stop == MergeFailed && run.result == Err(Wrap(MergePrefix, e))
      && run.trace.merged == [existing] && Text.HasPrefix(run.result.error.Text(), MergePrefix)
  {
    CreateConflictReloads(st, req, data, existing, t);
    RetryFromReloadsAfterConflict(StoreOps(req.dirKey, req.fileName), st, req, data, existing, t);
    Text.HasPrefixConcat(MergePrefix, e.Text());
  }

  /** A run whose save succeeds ends there. */
  lemma RetryFromSavedAtOnce(ops: Ops, st: Store, req: Request, current: Document, etag: string, attempt: nat, backoff: int,
                             trace: Trace)
    requires attempt <= req.maxRetries && ops.save(st, current, etag).0.Ok?
    ensures var (saved, st1) := ops.save(st, current, etag);
      RetryFrom(ops, st, req, current, etag, attempt, backoff, trace)
      == Run(saved, st1, trace.(attempts := trace.attempts + [Attempt(current, etag, saved)]), Saved)
  {
  }

  /** An iteration carries on only for a reason, and records it: its save was refused by a
      conflict with a retry left, it waited `backoff`, its reload found the file or found that
      there is none, and the merge function accepted what the reload found; the next attempt
      is the merge under the reloaded ETag, from the store the reload left. */
  lemma ContinueRecordsRetry(ops: Ops, st: Store, req: Request, current: Document, etag: string, attempt: nat, backoff: int,
                             trace: Trace, st2: Store, next: Document, etag2: string, t: Trace)
    requires Step(ops, st, req, current, etag, attempt, backoff, trace) == Continue(st2, next, etag2, t)
    ensures var (saved, st1) := ops.save(st, current, etag);
      var (loaded, st2') := ops.load(st1);
      && Conflicted(saved) && attempt < req.maxRetries
      && Recovered(loaded) && req.merge(Reloaded(loaded).data) == Ok(next)
      && etag2 == Reloaded(loaded).etag && st2 == st2'
      && t == Trace(trace.attempts + [Attempt(current, etag, saved)], trace.sleeps + [backoff],
                    trace.reloads + [loaded], trace.merged + [Reloaded(loaded).data])
  {
    var (saved, st1) := ops.save(st, current, etag);
    assert saved.Err? && IsPreconditionFailed(saved.error) && attempt < req.maxRetries;
    var (loaded, st2') := ops.load(st1);
    var trace2 := Waited(trace, current, etag, saved, backoff);
    assert AfterLoad(st2', req, trace2, loaded) == Continue(st2, next, etag2, t);
    assert Recovered(loaded);
    assert req.merge(Reloaded(loaded).data).Ok?;
  }

  /** A write under the ETag the file carries succeeds, and the next load returns what it wrote. */
  lemma SaveUnderCurrentETag(st: Store, dirKey: string, fileName: string, data: Document, t: string)
    requires st.faults == NoFaults && !IsEmpty(data) && t != ""
    requires var key := GetSymlinksFilePath(dirKey, fileName);
      key in st.objects && st.objects[key].etag == Some(t)
    ensures var (saved, st') := StoreOps(dirKey, fileName).save(st, data, t);
      && saved.Ok? && saved.value != ""
      && Load(st', dirKey, fileName).0 == Ok(Loaded(data, saved.value))
  {
    var key := GetSymlinksFilePath(dirKey, fileName);
    assert SaveCondition(t) == IfMatch(t) && Lookup(st, key) == Some(st.objects[key]);
    SaveWritesConditionally(st, dirKey, fileName, data, t);
    LoadAfterSave(st, dirKey, fileName, data, t);
  }

  /** A run whose first save conflicts, whose reload finds `existing` under `t`, and whose
      write of the merge under `t` succeeds, ends after two attempts with that write. */
  lemma RetryFromResolvesConflict(ops: Ops, st: Store, req: Request, data: Document, existing: Document, t: string,
                                  merged: Document)
    requires req.maxRetries >= 1 && req.merge(existing) == Ok(merged)
    requires var (saved, st1) := ops.save(st, data, "");
      saved.Err? && IsPreconditionFailed(saved.error) && ops.load(st1).0 == Ok(Loaded(existing, t))
    requires ops.save(ops.load(ops.save(st, data, "").1).1, merged, t).0.Ok?
    ensures var (saved, st1) := ops.save(st, data, "");
      var (saved2, st3) := ops.save(ops.load(st1).1, merged, t);
      RetryFrom(ops, st, req, data, "", 0, InitialBackoff, NoTrace)
      == Run(saved2, st3, Trace([Attempt(data, "", saved), Attempt(merged, t, saved2)], [InitialBackoff], [Ok(Loaded(existing, t))], [existing]), Saved)
  {
    var (saved, st1) := ops.save(st, data, "");
    var st2 := ops.load(st1).1;
    var saved2 := ops.save(st2, merged, t).0;
    var trace3 := Trace([Attempt(data, "", saved)], [InitialBackoff], [Ok(Loaded(existing, t))], [existing]);
    RetryFromReloadsAfterConflict(ops, st, req, data, existing, t);
    RetryFromSavedAtOnce(ops, st2, req, merged, t, 1, NextBackoff(InitialBackoff), trace3);
    assert trace3.attempts + [Attempt(merged, t, saved2)] == [Attempt(data, "", saved), Attempt(merged, t, saved2)];
  }

  /** The conflict resolved by a merge: the second attempt writes the merged document under
      the reloaded ETag, it succeeds, and the file then holds the merged document. */
  lemma RetryMergesAfterConflict(st: Store, req: Request, data: Document, existing: Document, t: string, merged: Document)
    requires st.faults == NoFaults && !IsEmpty(data) && req.maxRetries >= 1
    requires var key := GetSymlinksFilePath(req.dirKey, req.fileName);
      key in st.objects && st.objects[key].etag == Some(t) && ParseSymlinksFile(st.objects[key].data) == Ok(existing)
    requires req.merge(existing) == Ok(merged) && !IsEmpty(merged) && t != ""
    ensures var run := Retry(st, req, data, "");
      && run.stop == Saved && run.result.Ok? && run.result.value != ""
      && run.trace == Trace([Attempt(data, "", Err(PreconditionFailedError)), Attempt(merged, t, run.result)], [InitialBackoff],
                            [Ok(Loaded(existing, t))], [existing])
      && Load(run.store, req.dirKey, req.fileName).0 == Ok(Loaded(merged, run.result.value))
  {
    var ops := StoreOps(req.dirKey, req.fileName);
    CreateConflictReloads(st, req, data, existing, t);
    var st2 := ops.load(ops.save(st, data, "").1).1;
    SaveUnderCurrentETag(st2, req.dirKey, req.fileName, merged, t);
    RetryFromResolvesConflict(ops, st, req, data, existing, t, merged);
  }
}
