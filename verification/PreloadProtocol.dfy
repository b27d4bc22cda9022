/** Any number of processes that share one preload cache file and one lock, as steps of
    loadPreloadList, refreshPreloadList, warmPreloadCache and writePreloadCache. A process may
    crash anywhere; the clock never goes back. Times are in nanoseconds. */
module PreloadProtocol {

  const SECOND := 1_000_000_000
  const MAX_AGE := 7 * 24 * 3600 * SECOND

  /** The time a cache header carries: whole seconds. */
  function Floor(t: nat): (f: nat)
    ensures f <= t < f + SECOND && f % SECOND == 0
  {
    t - t % SECOND
  }

  // ------------------------------------------------------------------- state

  /** What is at the cache path. A header without a readable time has no stamp; Torn is a
      file whose writer had not finished. */
  datatype File = Missing | Damaged | Torn | Cache(stamp: Stamp)

  datatype Stamp = NoTime | At(time: nat)

  predicate Fresh(f: File, now: nat) {
    f.Cache? && f.stamp.At? && now - f.stamp.time < MAX_AGE
  }

  /** A temporary file: the header's time, the octets there so far and those there will be. */
  datatype Temp = Temp(stamp: nat, length: nat, size: nat)

  /** What a temporary file is once it has been renamed to the cache path. */
  function Renamed(t: Temp): File {
    if t.length == t.size then Cache(At(t.stamp)) else Torn
  }

  /** What a process ends with. */
  datatype Answer = FromCache(file: File) | FromFetch | StaleCopy(file: File) | NoList

  datatype Proc =
    | Start(warm: bool)
    | Looked(seen: File)                  // the unlocked read is done
    | Waiting(warm: bool)
    | Locked(warm: bool)
    | Reread(warm: bool, seen: File)      // the read under the lock is done
    | Fetching(warm: bool, stale: File)
    | Fetched
    | Writing(temp: Temp)                 // the temporary file is being written
    | Written(temp: Temp)                 // the write, sync and close have returned
    | Leaving(answer: Answer)             // the release is due
    | Ended(answer: Answer)
    | Crashed
  {
    predicate Critical() {
      Locked? || Reread? || Fetching? || Fetched? || Writing? || Written? || Leaving?
    }

    /** A fetch was begun and its result is not yet in place. */
    predicate Refreshing() {
      Fetching? || Fetched? || Writing? || Written?
    }
  }

  datatype Lock = Free | HeldBy(pid: nat)

  /** `writes` are the header times of the successful writes so far, in order. */
  datatype State = State(now: nat, file: File, lock: Lock, procs: map<nat, Proc>, writes: seq<nat>)

  predicate Init(s: State) {
    && s.lock == Free && s.writes == [] && !s.file.Torn?
    && forall p :: p in s.procs ==> s.procs[p].Start?
  }

  // ------------------------------------------------------------------- steps

  datatype Step = Tick(elapsed: nat) | Move(pid: nat, action: Action)

  datatype Action =
    | Look | Decide | SkipLook | Acquire | GiveUp | ReadAgain | DecideAgain
    | FetchOk | FetchFail | BeginWrite(size: nat) | WriteSome(octets: nat) | FinishWrite | WriteFail
    | Rename | Release | Crash

  function Set(s: State, p: nat, proc: Proc): State {
    s.(procs := s.procs[p := proc])
  }

  predicate Next(s: State, s': State, step: Step) {
    match step
    case Tick(elapsed) => s' == s.(now := s.now + elapsed)
    case Move(p, action) => p in s.procs && Act(s, s', p, s.procs[p], action)
  }

  predicate Act(s: State, s': State, p: nat, proc: Proc, action: Action) {
    match action
    case Look => proc == Start(false) && s' == Set(s, p, Looked(s.file))
    case SkipLook => proc == Start(true) && s' == Set(s, p, Waiting(true))
    case Decide =>
      proc.Looked? && s' == Set(s, p, if Fresh(proc.seen, s.now) then Ended(FromCache(proc.seen)) else Waiting(false))
    case Acquire => proc.Waiting? && s.lock == Free && s' == Set(s, p, Locked(proc.warm)).(lock := HeldBy(p))
    case GiveUp => proc.Waiting? && s' == Set(s, p, Ended(NoList))
    case ReadAgain => proc.Locked? && s' == Set(s, p, Reread(proc.warm, s.file))
    case DecideAgain =>
      proc.Reread? &&
      s' == Set(s, p, if Fresh(proc.seen, s.now) then Leaving(FromCache(proc.seen)) else Fetching(proc.warm, proc.seen))
    case FetchOk => proc.Fetching? && s' == Set(s, p, Fetched)
    case FetchFail =>
      && proc.Fetching?
      && s' == Set(s, p, Leaving(if !proc.warm && proc.stale.Cache? then StaleCopy(proc.stale) else NoList))
    case BeginWrite(size) => proc == Fetched && s' == Set(s, p, Writing(Temp(Floor(s.now), 0, size)))
    case WriteSome(octets) =>
      proc.Writing? && proc.temp.length + octets <= proc.temp.size
      && s' == Set(s, p, Writing(proc.temp.(length := proc.temp.length + octets)))
    case FinishWrite => proc.Writing? && proc.temp.length == proc.temp.size && s' == Set(s, p, Written(proc.temp))
    case WriteFail => (proc.Fetched? || proc.Writing? || proc.Written?) && s' == Set(s, p, Leaving(FromFetch))
    case Rename =>
      proc.Written?
      && s' == Set(s, p, Leaving(FromFetch)).(file := Renamed(proc.temp), writes := s.writes + [proc.temp.stamp])
    case Release => proc.Leaving? && s' == Set(s, p, Ended(proc.answer)).(lock := Free)
    case Crash =>
      !proc.Ended? && !proc.Crashed? &&
      s' == Set(s, p, Crashed).(lock := if s.lock == HeldBy(p) then Free else s.lock)
  }

  ghost predicate Follows(s: State, s': State) {
    exists step :: Next(s, s', step)
  }

  /** A run: it starts in an initial state and every state follows from the one before. */
  ghost predicate IsRun(run: seq<State>) {
    run != [] && Init(run[0])
    && forall i :: 0 <= i < |run| - 1 ==> Follows(run[i], run[i + 1])
  }

  // -------------------------------------------------------------- invariants

  predicate Last(writes: seq<nat>, t: nat) {
    writes != [] && writes[|writes| - 1] == t
  }

  /** Header times of successive writes are at least the maximum age apart. */
  predicate Spaced(writes: seq<nat>) {
    forall i :: 0 < i < |writes| ==> writes[i] - writes[i - 1] >= MAX_AGE
  }

  predicate OnTime(s: State, t: nat, begun: nat) {
    t % SECOND == 0 && begun <= t <= s.now
    && (s.writes != [] ==> t - s.writes[|s.writes| - 1] >= MAX_AGE)
  }

  /** No answer was read from a torn file. */
  predicate Whole(a: Answer) {
    match a
    case FromCache(f) => f.Cache?
    case StaleCopy(f) => f.Cache?
    case _ => true
  }

  /** What is known of one process, given that it holds the lock when it is in the critical section. */
  predicate ProcOk(s: State, proc: Proc, begun: nat) {
    && (proc.Reread? ==> proc.seen == s.file)
    && (proc.Fetching? ==> proc.stale == s.file)
    && (proc.Refreshing() ==> !Fresh(s.file, s.now))
    && (proc.Looked? ==> !proc.seen.Torn?)
    && (proc.Writing? || proc.Written? ==> OnTime(s, proc.temp.stamp, begun))
    && (proc.Written? ==> proc.temp.length == proc.temp.size)
    && (proc.Leaving? || proc.Ended? ==> Whole(proc.answer))
  }

  /** `begun` is the whole second the run started in. */
  ghost predicate Inv(s: State, begun: nat) {
    && begun <= s.now
    && !s.file.Torn?
    && (forall p :: p in s.procs ==> (s.procs[p].Critical() <==> s.lock == HeldBy(p)) && ProcOk(s, s.procs[p], begun))
    && Spaced(s.writes)
    && (forall i :: 0 <= i < |s.writes| ==> s.writes[i] % SECOND == 0 && begun <= s.writes[i] <= s.now)
    && (s.writes != [] ==> s.file == Cache(At(s.writes[|s.writes| - 1])))
  }

  lemma InitInv(s: State)
    requires Init(s)
    ensures Inv(s, Floor(s.now))
  {
  }

  /** A whole second at least the maximum age after another is still so when the later one is
      rounded down, the maximum age being whole seconds. */
  lemma FloorKeepsAge(now: nat, h: nat)
    requires h % SECOND == 0 && now - h >= MAX_AGE
    ensures Floor(now) - h >= MAX_AGE
  {
  }

  lemma FloorMonotone(a: nat, b: nat)
    requires a <= b && a % SECOND == 0
    ensures a <= Floor(b)
  {
  }

  lemma TickInv(s: State, elapsed: nat, begun: nat)
    requires Inv(s, begun)
    ensures Inv(s.(now := s.now + elapsed), begun)
  {
    var s' := s.(now := s.now + elapsed);
    forall p | p in s'.procs
      ensures (s'.procs[p].Critical() <==> s'.lock == HeldBy(p)) && ProcOk(s', s'.procs[p], begun)
    {
      assert ProcOk(s, s.procs[p], begun);
    }
  }

  lemma RenameInv(s: State, s': State, p: nat, begun: nat)
    requires Inv(s, begun) && begun % SECOND == 0 && p in s.procs && Act(s, s', p, s.procs[p], Rename)
    ensures Inv(s', begun)
  {
    var t := s.procs[p].temp.stamp;
    assert ProcOk(s, s.procs[p], begun);
    assert s.lock == HeldBy(p);
    assert forall i :: 0 <= i < |s'.writes| ==> s'.writes[i] == if i < |s.writes| then s.writes[i] else t;
    forall q | q in s'.procs
      ensures (s'.procs[q].Critical() <==> s'.lock == HeldBy(q)) && ProcOk(s', s'.procs[q], begun)
    {
      assert q in s.procs && ProcOk(s, s.procs[q], begun);
      if q != p {
        assert !s.procs[q].Critical();
      }
    }
  }

  lemma BeginWriteInv(s: State, s': State, p: nat, size: nat, begun: nat)
    requires Inv(s, begun) && begun % SECOND == 0 && p in s.procs && Act(s, s', p, s.procs[p], BeginWrite(size))
    ensures Inv(s', begun)
  {
    assert ProcOk(s, s.procs[p], begun);
    FloorMonotone(begun, s.now);
    if s.writes != [] {
      FloorKeepsAge(s.now, s.writes[|s.writes| - 1]);
    }
    OthersInv(s, s', p, begun);
  }

  /** A move that leaves file, clock and writes alone needs checking for its own process only. */
  lemma OthersInv(s: State, s': State, p: nat, begun: nat)
    requires Inv(s, begun) && p in s.procs && p in s'.procs
    requires s' == s.(procs := s.procs[p := s'.procs[p]], lock := s'.lock)
    requires ProcOk(s', s'.procs[p], begun)
    requires forall q :: q in s'.procs ==> (s'.procs[q].Critical() <==> s'.lock == HeldBy(q))
    ensures Inv(s', begun)
  {
    forall q | q in s'.procs ensures ProcOk(s', s'.procs[q], begun) {
      if q != p {
        assert ProcOk(s, s.procs[q], begun);
      }
    }
  }

  lemma MoveInv(s: State, s': State, p: nat, action: Action, begun: nat)
    requires Inv(s, begun) && begun % SECOND == 0 && p in s.procs && Act(s, s', p, s.procs[p], action)
    ensures Inv(s', begun)
  {
    match action {
      case Rename => RenameInv(s, s', p, begun);
      case BeginWrite(size) => BeginWriteInv(s, s', p, size, begun);
      case _ =>
        assert ProcOk(s, s.procs[p], begun);
        assert s.procs[p].Critical() <==> s.lock == HeldBy(p);
        OthersInv(s, s', p, begun);
    }
  }

  lemma NextInv(s: State, s': State, step: Step, begun: nat)
    requires Inv(s, begun) && begun % SECOND == 0 && Next(s, s', step)
    ensures Inv(s', begun)
  {
    match step {
      case Tick(elapsed) => TickInv(s, elapsed, begun);
      case Move(p, action) => MoveInv(s, s', p, action, begun);
    }
  }

  lemma {:induction false} RunInv(run: seq<State>, i: nat)
    requires IsRun(run) && i < |run|
    ensures Inv(run[i], Floor(run[0].now))
  {
    if i == 0 {
      InitInv(run[0]);
    } else {
      RunInv(run, i - 1);
      assert Follows(run[i - 1], run[i - 1 + 1]);
      var step :| Next(run[i - 1], run[i], step);
      NextInv(run[i - 1], run[i], step, Floor(run[0].now));
    }
  }

  // ------------------------------------------------------------ main results

  /** Fetches never overlap: at most one process at a time has begun one and not finished
      putting its result in place. */
  lemma FetchesNeverOverlap(run: seq<State>, i: nat, p: nat, q: nat)
    requires IsRun(run) && i < |run| && p in run[i].procs && q in run[i].procs
    requires run[i].procs[p].Refreshing() && run[i].procs[q].Refreshing()
    ensures p == q
  {
    RunInv(run, i);
    assert run[i].lock == HeldBy(p);
    assert run[i].lock == HeldBy(q);
  }

  /** No fetch starts while a fresh cache exists, even one written while the process waited. */
  lemma NoFetchWhileFresh(run: seq<State>, i: nat, p: nat)
    requires IsRun(run) && i + 1 < |run| && p in run[i].procs && p in run[i + 1].procs
    requires !run[i].procs[p].Fetching? && run[i + 1].procs[p].Fetching?
    ensures !Fresh(run[i].file, run[i].now) && !Fresh(run[i + 1].file, run[i + 1].now)
  {
    RunInv(run, i + 1);
    assert Follows(run[i], run[i + 1]);
    FetchStart(run[i], run[i + 1], p);
    assert ProcOk(run[i + 1], run[i + 1].procs[p], Floor(run[0].now));
  }

  lemma FetchStart(s: State, s': State, p: nat)
    requires Follows(s, s') && p in s.procs && p in s'.procs && !s.procs[p].Fetching? && s'.procs[p].Fetching?
    ensures s'.file == s.file && s'.now == s.now
  {
    var step :| Next(s, s', step);
    match step {
      case Tick(_) =>
      case Move(q, action) => assert q == p;
    }
  }

  /** Readers see only complete files: neither the cache path nor any answer is ever torn. */
  lemma ReadersSeeWholeFiles(run: seq<State>, i: nat, p: nat)
    requires IsRun(run) && i < |run| && p in run[i].procs
    ensures !run[i].file.Torn?
    ensures run[i].procs[p].Ended? ==> Whole(run[i].procs[p].answer)
  {
    RunInv(run, i);
    assert ProcOk(run[i], run[i].procs[p], Floor(run[0].now));
  }

  // ------------------------------------------------------ what a process answers

  /** A list less than seven days old, to the nanosecond. */
  predicate Recent(f: File, now: nat) {
    f.Cache? && f.stamp.At? && now - f.stamp.time < 604_800_000_000_000
  }

  /** The step of one process between two states. */
  lemma StepOf(s: State, s': State, p: nat) returns (action: Action)
    requires Follows(s, s') && p in s.procs && p in s'.procs && s'.procs[p] != s.procs[p]
    ensures Act(s, s', p, s.procs[p], action)
  {
    var step :| Next(s, s', step);
    match step {
      case Tick(_) => assert false;
      case Move(q, a) =>
        action := a;
        assert q == p;
    }
  }

  /** What a process has seen when it decides is what was at the path when it read. */
  lemma ReadsThePath(run: seq<State>, i: nat, p: nat)
    requires IsRun(run) && i + 1 < |run| && p in run[i].procs && p in run[i + 1].procs
    ensures run[i].procs[p].Start? && run[i + 1].procs[p].Looked? ==> run[i + 1].procs[p].seen == run[i].file
    ensures run[i].procs[p].Locked? && run[i + 1].procs[p].Reread? ==> run[i + 1].procs[p].seen == run[i].file
    ensures run[i].procs[p].Reread? ==> run[i].procs[p].seen == run[i].file
  {
    RunInv(run, i);
    assert ProcOk(run[i], run[i].procs[p], Floor(run[0].now));
    assert Follows(run[i], run[i + 1]);
    if run[i + 1].procs[p] != run[i].procs[p] {
      var action := StepOf(run[i], run[i + 1], p);
    }
  }

  /** A process answers from the cache if and only if what it read is recent when it decides;
      else it waits for the lock or, holding it, fetches. */
  lemma AnswersFromRecentCache(run: seq<State>, i: nat, p: nat)
    requires IsRun(run) && i + 1 < |run| && p in run[i].procs && p in run[i + 1].procs
    requires run[i + 1].procs[p] != run[i].procs[p] && !run[i + 1].procs[p].Crashed?
    ensures run[i].procs[p].Looked? ==>
      run[i + 1].procs[p] ==
        if Recent(run[i].procs[p].seen, run[i].now) then Ended(FromCache(run[i].procs[p].seen)) else Waiting(false)
    ensures run[i].procs[p].Reread? ==>
      run[i + 1].procs[p] ==
        if Recent(run[i].file, run[i].now) then Leaving(FromCache(run[i].file))
        else Fetching(run[i].procs[p].warm, run[i].file)
  {
    RunInv(run, i);
    assert ProcOk(run[i], run[i].procs[p], Floor(run[0].now));
    assert Follows(run[i], run[i + 1]);
    var action := StepOf(run[i], run[i + 1], p);
  }

  /** When a fetch fails, a load answers with the copy at the path if there is one to read, and
      has no list else; a warm-up never answers with it. */
  lemma FailedFetchAnswers(run: seq<State>, i: nat, p: nat)
    requires IsRun(run) && i + 1 < |run| && p in run[i].procs && p in run[i + 1].procs
    requires run[i].procs[p].Fetching? && run[i + 1].procs[p].Leaving?
    ensures run[i + 1].procs[p].answer ==
      if !run[i].procs[p].warm && run[i].file.Cache? then StaleCopy(run[i].file) else NoList
  {
    RunInv(run, i);
    assert ProcOk(run[i], run[i].procs[p], Floor(run[0].now));
    assert Follows(run[i], run[i + 1]);
    var action := StepOf(run[i], run[i + 1], p);
  }

  /** When it succeeds, the process answers with what it fetched, whether or not that could be
      written. */
  lemma FetchedAnswers(run: seq<State>, i: nat, p: nat)
    requires IsRun(run) && i + 1 < |run| && p in run[i].procs && p in run[i + 1].procs
    requires run[i].procs[p].Fetched? || run[i].procs[p].Writing? || run[i].procs[p].Written?
    requires run[i + 1].procs[p].Leaving?
    ensures run[i + 1].procs[p].answer == FromFetch
  {
    assert Follows(run[i], run[i + 1]);
    var action := StepOf(run[i], run[i + 1], p);
  }

  /** A process that is a load from its start. */
  predicate OfLoad(proc: Proc) {
    match proc
    case Start(warm) => !warm
    case Waiting(warm) => !warm
    case Locked(warm) => !warm
    case Reread(warm, _) => !warm
    case Fetching(warm, _) => !warm
    case _ => true
  }

  lemma {:induction false} LoadStaysLoad(run: seq<State>, i: nat, p: nat)
    requires IsRun(run) && i < |run| && p in run[0].procs && run[0].procs[p] == Start(false)
    ensures p in run[i].procs && OfLoad(run[i].procs[p])
  {
    if i > 0 {
      LoadStaysLoad(run, i - 1, p);
      assert Follows(run[i - 1], run[i - 1 + 1]);
      ProcsStay(run[i - 1], run[i], p);
      if run[i].procs[p] != run[i - 1].procs[p] {
        var action := StepOf(run[i - 1], run[i], p);
      }
    }
  }

  lemma ProcsStay(s: State, s': State, p: nat)
    requires Follows(s, s') && p in s.procs
    ensures p in s'.procs
  {
    var step :| Next(s, s', step);
  }

  /** It gave up waiting for the lock. */
  predicate GaveUpAt(run: seq<State>, j: nat, p: nat) {
    j + 1 < |run| && p in run[j].procs && p in run[j + 1].procs
    && run[j].procs[p].Waiting? && run[j + 1].procs[p] == Ended(NoList)
  }

  /** Its fetch failed, and no list could be read at the path. */
  predicate FoundNothingAt(run: seq<State>, j: nat, p: nat) {
    j + 1 < |run| && p in run[j].procs && p in run[j + 1].procs
    && run[j].procs[p].Fetching? && run[j + 1].procs[p] == Leaving(NoList) && !run[j].file.Cache?
  }

  predicate Without(proc: Proc) {
    proc == Leaving(NoList) || proc == Ended(NoList)
  }

  /** How a load comes to have no list. */
  lemma LosesList(run: seq<State>, i: nat, p: nat)
    requires IsRun(run) && i + 1 < |run| && p in run[i].procs && p in run[i + 1].procs
    requires OfLoad(run[i].procs[p]) && !Without(run[i].procs[p]) && Without(run[i + 1].procs[p])
    ensures GaveUpAt(run, i, p) || FoundNothingAt(run, i, p)
  {
    assert Follows(run[i], run[i + 1]);
    if run[i].procs[p].Fetching? {
      var action := StepOf(run[i], run[i + 1], p);
      FailedFetchAnswers(run, i, p);
    } else {
      var action := StepOf(run[i], run[i + 1], p);
      assert action.GiveUp?;
    }
  }

  /** A load has no list only when it gave up waiting, or its fetch failed with nothing readable
      at the path. */
  lemma {:induction false} NoListOnlyIf(run: seq<State>, i: nat, p: nat)
    requires IsRun(run) && i < |run| && p in run[0].procs && run[0].procs[p] == Start(false)
    requires p in run[i].procs && Without(run[i].procs[p])
    ensures exists j :: 0 <= j < i && (GaveUpAt(run, j, p) || FoundNothingAt(run, j, p))
  {
    LoadStaysLoad(run, i - 1, p);
    if Without(run[i - 1].procs[p]) {
      NoListOnlyIf(run, i - 1, p);
    } else {
      LosesList(run, i - 1, p);
    }
  }

  lemma {:induction false} SpacedSum(writes: seq<nat>)
    requires Spaced(writes) && writes != []
    ensures writes[|writes| - 1] - writes[0] >= (|writes| - 1) * MAX_AGE
  {
    if |writes| > 1 {
      var init := writes[..|writes| - 1];
      assert Spaced(init);
      SpacedSum(init);
    }
  }

  /** Successive writes carry header times at least seven days apart, so by any time at most
      one list per seven days since the start has been put in place, and one more. */
  lemma DownloadsBounded(run: seq<State>, i: nat)
    requires IsRun(run) && i < |run|
    ensures forall k :: 0 < k < |run[i].writes| ==> run[i].writes[k] >= run[i].writes[k - 1] + 604_800_000_000_000
    ensures |run[i].writes| <= 1 + (run[i].now - Floor(run[0].now)) / 604_800_000_000_000
  {
    RunInv(run, i);
    WritesBounded(run[i], Floor(run[0].now));
  }

  lemma WritesBounded(s: State, begun: nat)
    requires Inv(s, begun)
    ensures |s.writes| <= 1 + (s.now - begun) / MAX_AGE
  {
    if s.writes != [] {
      SpacedSum(s.writes);
      CountBound(|s.writes|, s.now - begun);
    }
  }

  lemma CountBound(n: nat, age: nat)
    requires n >= 1 && (n - 1) * MAX_AGE <= age
    ensures n <= 1 + age / MAX_AGE
  {
  }
}
