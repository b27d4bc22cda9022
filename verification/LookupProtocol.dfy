/** The lookups of one run as interleaved steps. Many goroutines share the cache of run.go;
    each call of get touches it under the mutex, once to read and once to store. In between,
    dnsLookup of dog.go makes up to two attempts, and each waits for a slot of limitedRunner
    in runner.go before dog is started. */
module LookupProtocol {
  import opened Text
  import opened Records
  import opened LookupCache
  import Slots

  // ------------------------------------------------------------------- state

  /** A call of get: about to read, past a miss, waiting for a slot, dog running, an attempt
      over, its outcome about to be stored; or returned. `retry` marks the second attempt. */
  datatype Call =
    | Asked
    | Missed
    | Waiting(retry: bool)
    | Running(retry: bool)
    | Tried(retry: bool, outcome: Lookup)
    | Holding(outcome: Lookup)
    | Hit(found: Lookup)
    | Fetched(outcome: Lookup)
    | PhaseOver
  {
    predicate InFlight() { Waiting? || Running? || Tried? }
    predicate HasOutcome() { Tried? || Holding? || Fetched? }
  }

  /** `base` is the phase the call read, `begun` whether dog was ever started for it. */
  datatype Caller = Caller(question: Question, base: nat, begun: bool, call: Call)

  /** What one run of dog came to, and the call it was for. */
  datatype Outcome = Outcome(of: nat, question: Question, lookup: Lookup)

  /** `over` are the phases that ended; `late` and `firstLate` the calls whose own deadline,
      or whose first attempt's, has passed; `storer` the call that last stored each key. */
  datatype State = State(
    memo: Memo,
    over: set<nat>,
    late: set<nat>,
    firstLate: set<nat>,
    slots: Slots.State,
    callers: map<nat, Caller>,
    history: seq<Outcome>,
    storer: map<string, nat>)

  predicate Init(s: State) {
    && s.memo.done == map[] && s.callers == map[] && s.history == []
    && Slots.Init(s.slots) && s.slots.calls == map[]
  }

  // ------------------------------------------------------------------- steps

  datatype Action =
    | Ask(question: Question)
    | Read
    | Check
    | Begin
    | GiveUp
    | Answer(outcome: Lookup)
    | Settle
    | Store
    | Late
    | FirstLate
    | Other(slot: Slots.Action)
    | SetContext(phase: nat)
    | Expire(phase: nat)
    | DropTrust


  /** The deadline of a call has ended: its own, or its phase's. */
  predicate Ended(s: State, c: nat) {
    c in s.callers && (c in s.late || s.callers[c].base in s.over)
  }

  /** The first attempt has a deadline of its own, within the call's. */
  predicate AttemptOver(s: State, c: nat, retry: bool) {
    Ended(s, c) || (!retry && c in s.firstLate)
  }

  /** What one run of dog can come to: a lookup of the question, without content when it
      timed out. */
  predicate Plausible(q: Question, l: Lookup) {
    l.name == q.name && l.qtype == q.qtype && (l.status == StatusTimeout ==> l == TimedOut(q))
  }

  /** dnsLookup tries again when the first attempt timed out and there is time left. */
  predicate Again(s: State, c: nat, call: Call) {
    call.Tried? && !call.retry && call.outcome.status == StatusTimeout && !Ended(s, c)
  }

  /** What an action asks of the call. GiveUp is the other branch of the runner's select; a
      slot granted when the deadline has ended starts nothing either. An answer that comes
      when the attempt's deadline has ended counts as a timeout. */
  predicate Ready(s: State, c: nat, action: Action) {
    match action
    case Ask(q) => c !in s.callers && q.Proper()
    case Read => c in s.callers && s.callers[c].call.Asked?
    case Check => c in s.callers && s.callers[c].call.Missed?
    case Begin => c in s.callers && s.callers[c].call.Waiting? && !AttemptOver(s, c, s.callers[c].call.retry)
    case GiveUp => c in s.callers && s.callers[c].call.Waiting? && AttemptOver(s, c, s.callers[c].call.retry)
    case Answer(l) =>
      && c in s.callers && s.callers[c].call.Running? && Plausible(s.callers[c].question, l)
      && (AttemptOver(s, c, s.callers[c].call.retry) ==> l == TimedOut(s.callers[c].question))
    case Settle => c in s.callers && s.callers[c].call.Tried?
    case Store => c in s.callers && s.callers[c].call.Holding?
    case Late => c in s.callers && s.callers[c].call.InFlight()
    case FirstLate => c in s.callers && s.callers[c].call.InFlight()
    case _ => true
  }

  function Moved(s: State, c: nat, call: Call): State
    requires c in s.callers
  {
    s.(callers := s.callers[c := s.callers[c].(call := call)])
  }

  /** What an action does, the semaphore aside. */
  function Done(s: State, c: nat, action: Action): State
    requires Ready(s, c, action)
  {
    match action
    case Ask(q) => s.(callers := s.callers[c := Caller(q, 0, false, Asked)])
    case Read => (
      match Recalled(s.memo, s.callers[c].question.CacheKey())
      case Found(l) => Moved(s, c, Hit(l))
      case Miss(base) => s.(callers := s.callers[c := s.callers[c].(base := base, call := Missed)]))
    case Check => Moved(s, c, if s.callers[c].base in s.over then PhaseOver else Waiting(false))
    case Begin =>
      var call := Running(s.callers[c].call.retry);
      s.(callers := s.callers[c := s.callers[c].(begun := true, call := call)])
    case GiveUp => Moved(s, c, Tried(s.callers[c].call.retry, TimedOut(s.callers[c].question)))
    case Answer(l) =>
      Moved(s, c, Tried(s.callers[c].call.retry, l)).(history := s.history + [Outcome(c, s.callers[c].question, l)])
    case Settle =>
      var call := s.callers[c].call;
      Moved(s, c, if Again(s, c, call) then Waiting(true) else Holding(call.outcome))
    case Store =>
      var l, key := s.callers[c].call.outcome, s.callers[c].question.CacheKey();
      Moved(s, c, Fetched(l)).(memo := Stored(s.memo, key, l), storer := s.storer[key := c])
    case Late => s.(late := s.late + {c})
    case FirstLate => s.(firstLate := s.firstLate + {c})
    case Other(_) => s
    case SetContext(phase) => s.(memo := s.memo.(phase := phase))
    case Expire(phase) => s.(over := s.over + {phase})
    case DropTrust => s.(memo := Dropped(s.memo))
  }

  // ------------------------------------------------------ the semaphore's part

  /** The semaphore knows one call for each attempt, and those of the other tools. */
  function Slot(c: nat, retry: bool): nat {
    3 * c + if retry then 1 else 0
  }

  function OtherSlot(k: nat): nat {
    3 * k + 2
  }

  datatype SlotUse = SlotUse(id: nat, action: Slots.Action)

  /** The step of limitedRunner that an action makes, if any. */
  function UseOf(s: State, c: nat, action: Action): Option<SlotUse>
    requires Ready(s, c, action)
  {
    match action
    case Check => if s.callers[c].base in s.over then None else Some(SlotUse(Slot(c, false), Slots.Arrive))
    case Begin => Some(SlotUse(Slot(c, s.callers[c].call.retry), Slots.Enter))
    case GiveUp => Some(SlotUse(Slot(c, s.callers[c].call.retry), Slots.Cancel))
    case Answer(l) => Some(SlotUse(Slot(c, s.callers[c].call.retry), Slots.Return(l.status == StatusTimeout)))
    case Settle =>
      if Again(s, c, s.callers[c].call) then Some(SlotUse(Slot(c, true), Slots.Arrive)) else None
    case Other(slot) => Some(SlotUse(OtherSlot(c), slot))
    case _ => None
  }

  predicate Enabled(s: State, c: nat, action: Action) {
    && Ready(s, c, action)
    && match UseOf(s, c, action)
       case None => true
       case Some(use) => Slots.Enabled(s.slots, use.id, use.action)
  }

  function Effect(s: State, c: nat, action: Action): State
    requires Enabled(s, c, action)
  {
    match UseOf(s, c, action)
    case None => Done(s, c, action)
    case Some(use) => Done(s, c, action).(slots := Slots.Effect(s.slots, use.id, use.action))
  }

  predicate Next(s: State, s': State, c: nat, action: Action) {
    Enabled(s, c, action) && s' == Effect(s, c, action)
  }

  ghost predicate Follows(s: State, s': State) {
    exists c, action :: Next(s, s', c, action)
  }

  ghost predicate MovesAt(run: seq<State>, i: nat)
    requires i + 1 < |run|
  {
    Follows(run[i], run[i + 1])
  }

  ghost predicate IsRun(run: seq<State>) {
    run != [] && Init(run[0]) && forall i: nat :: i + 1 < |run| ==> MovesAt(run, i)
  }

  // ------------------------------------------------------------ the invariant

  /** `l` is what a query run for the call `c` came to. */
  predicate Ran(h: seq<Outcome>, c: nat, q: Question, l: Lookup) {
    Outcome(c, q, l) in h
  }

  /** `l` as it is, or after its trust was dropped. */
  predicate UpToTrust(l: Lookup, from: Lookup) {
    SameButTrust(l, from) && (l.trust == from.trust || l.trust == TrustNone)
  }

  /** The call `d` stored what `l` is a copy of, for the question `q`. */
  predicate CopyOf(s: State, d: nat, q: Question, l: Lookup) {
    && d in s.callers && s.callers[d].question == q
    && s.callers[d].call.Fetched? && UpToTrust(l, s.callers[d].call.outcome)
  }

  predicate CallOk(s: State, c: nat)
    requires c in s.callers
  {
    var q, begun, call := s.callers[c].question, s.callers[c].begun, s.callers[c].call;
    && q.Proper()
    && (call.Running? ==> begun)
    && (begun ==> call.InFlight() || call.HasOutcome())
    && (call == Waiting(false) ==> !begun)
    && (call == Waiting(true) && begun ==> Ran(s.history, c, q, TimedOut(q)))
    && (call.HasOutcome() ==> Plausible(q, call.outcome))
    && (call.HasOutcome() ==> if begun then Ran(s.history, c, q, call.outcome) else call.outcome == TimedOut(q))
    && (call.Tried? && call.retry && !begun ==> Ended(s, c))
    && (call.Holding? && !begun ==> Ended(s, c))
    && (call.PhaseOver? ==> s.callers[c].base in s.over)
    && (call.Hit? ==> exists d :: d in s.callers && CopyOf(s, d, q, call.found))
  }

  predicate CallsOk(s: State) {
    forall c :: c in s.callers ==> CallOk(s, c)
  }

  /** Queries are run for calls that begun one. */
  predicate HistoryOk(s: State) {
    forall o :: o in s.history ==>
      o.of in s.callers && s.callers[o.of].begun && s.callers[o.of].question == o.question
  }

  predicate EntryOk(s: State, k: string)
    requires k in s.memo.done
  {
    && k in s.storer && s.storer[k] in s.callers
    && s.callers[s.storer[k]].question.CacheKey() == k
    && CopyOf(s, s.storer[k], s.callers[s.storer[k]].question, s.memo.done[k])
  }

  predicate EntriesOk(s: State) {
    forall k :: k in s.memo.done ==> EntryOk(s, k)
  }

  /** What was stored stays. */
  predicate StoresKept(s: State) {
    forall c :: c in s.callers && s.callers[c].call.Fetched? ==> s.callers[c].question.CacheKey() in s.memo.done
  }

  predicate Inv(s: State) {
    CallsOk(s) && HistoryOk(s) && EntriesOk(s) && StoresKept(s)
  }

  /** The deadline of `c` ended before dog was started for it, and it has not returned, or has
      stored. */
  predicate Lost(s: State, c: nat) {
    && c in s.callers && !s.callers[c].begun && Ended(s, c)
    && (s.callers[c].call.Waiting? || s.callers[c].call.HasOutcome())
  }

  /** A resolver's silence is not kept as trust: the step that drops it leaves no entry any. */
  lemma DropLeavesNoTrust(s: State, s': State, c: nat)
    requires Next(s, s', c, DropTrust)
    ensures TrustGone(s'.memo.done, s.memo.done)
    ensures s'.callers == s.callers && s'.history == s.history && s'.memo.phase == s.memo.phase
  {
  }

  /** After the attempt, dnsLookup tries once more exactly when the first attempt timed out and
      the call has time left; else it holds what the attempt came to. */
  lemma RetriesOnce(s: State, s': State, c: nat)
    requires Next(s, s', c, Settle)
    ensures var call := s.callers[c].call;
      s'.callers[c].call ==
        if !call.retry && call.outcome.status == StatusTimeout && c !in s.late && s.callers[c].base !in s.over
        then Waiting(true) else Holding(call.outcome)
  {
  }

  /** What no step undoes. */
  predicate Grows(s: State, s': State) {
    SharedGrows(s, s') && forall c :: c in s.callers ==> CallGrows(s, s', c)
  }

  predicate SharedGrows(s: State, s': State) {
    && s.over <= s'.over && s.late <= s'.late && s.memo.done.Keys <= s'.memo.done.Keys
    && forall o :: o in s.history ==> o in s'.history
  }

  predicate CallGrows(s: State, s': State, c: nat)
    requires c in s.callers
  {
    && c in s'.callers && s'.callers[c].question == s.callers[c].question
    && (s.callers[c].begun ==> s'.callers[c].begun)
    && (s.callers[c].call.Fetched? ==> s'.callers[c] == s.callers[c])
    && (Lost(s, c) ==> Lost(s', c))
  }

  lemma NextSharedGrows(s: State, s': State, c: nat, action: Action)
    requires Next(s, s', c, action)
    ensures SharedGrows(s, s')
  {
  }

  lemma OthersSame(s: State, s': State, c: nat, action: Action)
    requires Next(s, s', c, action)
    ensures s'.callers == s.callers || (c in s'.callers && s'.callers == s.callers[c := s'.callers[c]])
  {
  }

  lemma MovedGrows(s: State, s': State, c: nat, action: Action)
    requires Next(s, s', c, action) && c in s.callers
    ensures CallGrows(s, s', c)
  {
  }

  lemma NextGrows(s: State, s': State, c: nat, action: Action)
    requires Next(s, s', c, action)
    ensures Grows(s, s')
    ensures forall d :: d in s'.callers && d != c ==> d in s.callers && s'.callers[d] == s.callers[d]
  {
    NextSharedGrows(s, s', c, action);
    OthersSame(s, s', c, action);
    if c in s.callers {
      MovedGrows(s, s', c, action);
    }
  }

  /** A call that did not move is as well off as before. */
  lemma OthersStayOk(s: State, s': State, d: nat)
    requires Grows(s, s') && d in s.callers && d in s'.callers && s'.callers[d] == s.callers[d] && CallOk(s, d)
    ensures CallOk(s', d)
  {
    var q, call := s.callers[d].question, s.callers[d].call;
    if call.Hit? {
      var e :| e in s.callers && CopyOf(s, e, q, call.found);
      assert CopyOf(s', e, q, call.found);
    }
  }

  /** What a reader finds is a copy of what some call for its question stored. */
  lemma FoundIsCopy(s: State, q: Question)
    requires Inv(s) && q.Proper() && q.CacheKey() in s.memo.done
    ensures s.storer[q.CacheKey()] in s.callers
    ensures CopyOf(s, s.storer[q.CacheKey()], q, s.memo.done[q.CacheKey()])
  {
    var k := q.CacheKey();
    assert EntryOk(s, k);
    var d := s.storer[k];
    var p := s.callers[d].question;
    assert CallOk(s, d);
    KeyUnambiguous(p.name, p.qtype, q.name, q.qtype);
  }

  lemma AnswerOk(s: State, s': State, c: nat, l: Lookup)
    requires Inv(s) && Next(s, s', c, Answer(l))
    ensures CallOk(s', c)
  {
    assert CallOk(s, c);
  }

  lemma SettleOk(s: State, s': State, c: nat)
    requires Inv(s) && Next(s, s', c, Settle)
    ensures CallOk(s', c)
  {
    assert CallOk(s, c);
  }

  lemma ReadOk(s: State, s': State, c: nat)
    requires Inv(s) && Next(s, s', c, Read)
    ensures CallOk(s', c)
  {
    var q := s.callers[c].question;
    assert CallOk(s, c);
    if q.CacheKey() in s.memo.done {
      var d := s.storer[q.CacheKey()];
      FoundIsCopy(s, q);
      assert CopyOf(s', d, q, s.memo.done[q.CacheKey()]);
    }
  }

  lemma MovedStaysOk(s: State, s': State, c: nat, action: Action)
    requires Inv(s) && Next(s, s', c, action) && c in s'.callers
    ensures CallOk(s', c)
  {
    match action {
      case Ask(_) =>
      case Read => ReadOk(s, s', c);
      case Answer(l) => AnswerOk(s, s', c, l);
      case Settle => SettleOk(s, s', c);
      case _ =>
        assert CallOk(s, c);
        if s'.callers[c] == s.callers[c] {
          NextGrows(s, s', c, action);
          OthersStayOk(s, s', c);
        }
    }
  }

  lemma CallsStayOk(s: State, s': State, c: nat, action: Action)
    requires Inv(s) && Next(s, s', c, action)
    ensures CallsOk(s')
  {
    NextGrows(s, s', c, action);
    forall d | d in s'.callers ensures CallOk(s', d) {
      if d == c {
        MovedStaysOk(s, s', c, action);
      } else {
        assert CallOk(s, d);
        OthersStayOk(s, s', d);
      }
    }
  }

  lemma EntriesStayOk(s: State, s': State, c: nat, action: Action)
    requires Inv(s) && Next(s, s', c, action)
    ensures EntriesOk(s')
  {
    NextGrows(s, s', c, action);
    forall k | k in s'.memo.done ensures EntryOk(s', k) {
      if !action.Store? || k != s.callers[c].question.CacheKey() {
        assert EntryOk(s, k);
      }
    }
  }

  /** A step adds to the history what a running query came to, or nothing. */
  predicate HistoryAdded(s: State, s': State, c: nat) {
    || s'.history == s.history
    || (c in s.callers && s.callers[c].call.Running? && s'.history != []
        && s'.history[|s'.history| - 1].of == c && s'.history[|s'.history| - 1].question == s.callers[c].question
        && s'.history[..|s'.history| - 1] == s.history)
  }

  lemma NextHistory(s: State, s': State, c: nat, action: Action)
    requires Next(s, s', c, action)
    ensures HistoryAdded(s, s', c)
  {
  }

  lemma HistoryStaysOk(s: State, s': State, c: nat)
    requires Inv(s) && Grows(s, s') && HistoryAdded(s, s', c)
    ensures HistoryOk(s')
  {
    if s'.history != s.history {
      assert CallOk(s, c) && CallGrows(s, s', c);
      var n := |s'.history| - 1;
      forall o | o in s'.history
        ensures o.of in s'.callers && s'.callers[o.of].begun && s'.callers[o.of].question == o.question
      {
        if o != s'.history[n] {
          assert o in s'.history[..n];
          assert CallGrows(s, s', o.of);
        }
      }
    } else {
      assert forall o :: o in s.history ==> CallGrows(s, s', o.of);
    }
  }

  lemma StoreKept(s: State, s': State, c: nat, action: Action)
    requires Next(s, s', c, action) && c in s'.callers && s'.callers[c].call.Fetched?
    ensures s'.callers[c].question.CacheKey() in s'.memo.done || s'.callers == s.callers
  {
  }

  lemma StoresStayKept(s: State, s': State, c: nat, action: Action)
    requires Inv(s) && Next(s, s', c, action)
    ensures StoresKept(s')
  {
    NextGrows(s, s', c, action);
    if c in s'.callers && s'.callers[c].call.Fetched? {
      StoreKept(s, s', c, action);
    }
  }

  lemma NextInv(s: State, s': State, c: nat, action: Action)
    requires Inv(s) && Next(s, s', c, action)
    ensures Inv(s')
  {
    CallsStayOk(s, s', c, action);
    EntriesStayOk(s, s', c, action);
    NextGrows(s, s', c, action);
    NextHistory(s, s', c, action);
    HistoryStaysOk(s, s', c);
    StoresStayKept(s, s', c, action);
  }

  lemma {:induction false} RunInv(run: seq<State>, i: nat)
    requires IsRun(run) && i < |run|
    ensures Inv(run[i])
  {
    if i > 0 {
      RunInv(run, i - 1);
      var c, action := StepAt(run, i - 1);
      NextInv(run[i - 1], run[i], c, action);
    }
  }

  lemma StepAt(run: seq<State>, i: nat) returns (c: nat, action: Action)
    requires IsRun(run) && i + 1 < |run|
    ensures Next(run[i], run[i + 1], c, action)
  {
    assert MovesAt(run, i);
    c, action :| Next(run[i], run[i + 1], c, action);
  }

  lemma {:induction false} RunGrows(run: seq<State>, i: nat, j: nat)
    requires IsRun(run) && i <= j < |run|
    ensures Grows(run[i], run[j])
  {
    if i < j {
      RunGrows(run, i, j - 1);
      var c, action := StepAt(run, j - 1);
      NextGrows(run[j - 1], run[j], c, action);
    }
  }

  // ------------------------------------------------- calls that never had a slot

  /** The deadline of `c` has ended before dog was started for it. */
  predicate Starved(s: State, c: nat) {
    && c in s.callers && !s.callers[c].begun && Ended(s, c)
    && (s.callers[c].call.Waiting? || s.callers[c].call.Tried?)
  }

  predicate StarvedBy(run: seq<State>, i: nat, c: nat)
    requires i < |run|
  {
    exists j :: 0 <= j <= i && Starved(run[j], c)
  }

  lemma StarvedStaysLost(run: seq<State>, j: nat, i: nat, c: nat)
    requires IsRun(run) && j <= i < |run| && Starved(run[j], c)
    ensures Lost(run[i], c)
  {
    RunGrows(run, j, i);
    assert Lost(run[j], c);
  }

  /** A call that is done or about to store. */
  predicate Through(s: State, c: nat) {
    c in s.callers && (s.callers[c].call.Holding? || s.callers[c].call.Fetched?)
  }

  lemma StarvedWhenThrough(s: State, s': State, c: nat, d: nat, action: Action)
    requires Inv(s) && Next(s, s', d, action) && Through(s', c) && !s'.callers[c].begun
    ensures (Through(s, c) && !s.callers[c].begun) || Starved(s, c)
  {
    if c != d {
      NextGrows(s, s', d, action);
    } else if action.Settle? {
      assert CallOk(s, c);
    }
  }

  lemma {:induction false} UnbegunWasStarved(run: seq<State>, i: nat, c: nat)
    requires IsRun(run) && i < |run| && Through(run[i], c) && !run[i].callers[c].begun
    ensures StarvedBy(run, i, c)
  {
    if i > 0 {
      var d, action := StepAt(run, i - 1);
      RunInv(run, i - 1);
      StarvedWhenThrough(run[i - 1], run[i], c, d, action);
      if !Starved(run[i - 1], c) {
        UnbegunWasStarved(run, i - 1, c);
      }
    }
  }

  /** A call that is through had dog started for it, unless its deadline ended first. */
  lemma BegunUnlessStarved(run: seq<State>, i: nat, c: nat)
    requires IsRun(run) && i < |run| && Through(run[i], c)
    ensures run[i].callers[c].begun <==> !StarvedBy(run, i, c)
  {
    if StarvedBy(run, i, c) {
      var j :| 0 <= j <= i && Starved(run[j], c);
      StarvedStaysLost(run, j, i, c);
    } else if !run[i].callers[c].begun {
      UnbegunWasStarved(run, i, c);
    }
  }

  // --------------------------------------------------------- over whole runs

  /** `l` is what a query run for the call `d` came to, its trust possibly dropped since. */
  predicate RealOf(h: seq<Outcome>, d: nat, q: Question, l: Lookup) {
    exists o :: o in h && o.of == d && o.question == q && UpToTrust(l, o.lookup)
  }

  predicate NoQueryOf(h: seq<Outcome>, d: nat) {
    forall o :: o in h ==> o.of != d
  }

  /** A timeout for the question, with nothing in it. */
  predicate IsTimeout(l: Lookup, q: Question) {
    && l.name == q.name && l.qtype == q.qtype && l.status == StatusTimeout && l.trust == TrustNone
    && l.records == [] && l.cname == [] && l.rrs == []
  }

  /** The call `d` returned `l`: what a query run for it came to, or, exactly if its deadline
      ended before dog was started for it, a timeout that no query produced. */
  predicate Sourced(run: seq<State>, i: nat, d: nat, q: Question, l: Lookup)
    requires i < |run|
  {
    && CopyOf(run[i], d, q, l)
    && (StarvedBy(run, i, d) <==> NoQueryOf(run[i].history, d))
    && if StarvedBy(run, i, d) then l == TimedOut(q) && IsTimeout(l, q) else RealOf(run[i].history, d, q, l)
  }

  lemma CopyIsSourced(run: seq<State>, i: nat, d: nat, q: Question, l: Lookup)
    requires IsRun(run) && i < |run| && CopyOf(run[i], d, q, l)
    ensures Sourced(run, i, d, q, l)
  {
    RunInv(run, i);
    BegunUnlessStarved(run, i, d);
    assert CallOk(run[i], d);
    if run[i].callers[d].begun {
      assert Outcome(d, q, run[i].callers[d].call.outcome) in run[i].history;
    }
  }

  /** In every interleaving, what the cache holds for a question came from the call that
      stored it: a query really run for that same name and type, or a made-up timeout exactly
      when the deadline of that call ended before it had a slot. */
  lemma StoredIsSourced(run: seq<State>, i: nat, q: Question)
    requires IsRun(run) && i < |run| && q.Proper() && q.CacheKey() in run[i].memo.done
    ensures var k := q.CacheKey();
      k in run[i].storer && Sourced(run, i, run[i].storer[k], q, run[i].memo.done[k])
  {
    var k := q.CacheKey();
    RunInv(run, i);
    assert EntryOk(run[i], k);
    FoundIsCopy(run[i], q);
    CopyIsSourced(run, i, run[i].storer[k], q, run[i].memo.done[k]);
  }

  /** So every entry is a real outcome as long as no call's deadline ends in the queue. */
  lemma StoredIsReal(run: seq<State>, i: nat, q: Question)
    requires IsRun(run) && i < |run| && q.Proper() && q.CacheKey() in run[i].memo.done
    requires forall c :: c in run[i].callers && run[i].callers[c].question == q ==> !StarvedBy(run, i, c)
    ensures exists d :: RealOf(run[i].history, d, q, run[i].memo.done[q.CacheKey()])
  {
    StoredIsSourced(run, i, q);
  }

  /** What a returned call gave its caller. */
  function Given(q: Question, call: Call): Option<Lookup> {
    match call
    case Hit(l) => Some(l)
    case Fetched(l) => Some(l)
    case PhaseOver => Some(TimedOut(q))
    case _ => None
  }

  /** What a caller gets has the same two sources, its own call's or that of the call that
      stored it, or else its phase was over when it came. */
  lemma AnswersExplained(run: seq<State>, i: nat, c: nat)
    requires IsRun(run) && i < |run| && c in run[i].callers
    ensures var q, call := run[i].callers[c].question, run[i].callers[c].call;
      match Given(q, call)
      case None => true
      case Some(l) =>
        if call.PhaseOver? then run[i].callers[c].base in run[i].over
        else exists d :: d in run[i].callers && Sourced(run, i, d, q, l)
  {
    var q, call := run[i].callers[c].question, run[i].callers[c].call;
    RunInv(run, i);
    assert CallOk(run[i], c);
    if call.Hit? {
      var d :| d in run[i].callers && CopyOf(run[i], d, q, call.found);
      CopyIsSourced(run, i, d, q, call.found);
    } else if call.Fetched? {
      CopyIsSourced(run, i, c, q, call.outcome);
    }
  }

  /** Some call for `q` is between its check and its store. */
  predicate Pending(s: State, q: Question) {
    exists c :: c in s.callers && s.callers[c].question == q
      && (s.callers[c].call.InFlight() || s.callers[c].call.Holding?)
  }

  predicate Queried(s: State, q: Question) {
    exists o :: o in s.history && o.question == q
  }

  /** Some call for `q` was starved. */
  predicate AnyStarved(run: seq<State>, i: nat, q: Question)
    requires i < |run|
  {
    exists c :: c in run[i].callers && run[i].callers[c].question == q && StarvedBy(run, i, c)
  }

  /** With no call on its way, a question is stored if and only if a query was run for it or a
      call for it was starved. A phase that is over at the check leaves nothing. */
  lemma StoredExactlyWhen(run: seq<State>, i: nat, q: Question)
    requires IsRun(run) && i < |run| && q.Proper() && !Pending(run[i], q)
    ensures q.CacheKey() in run[i].memo.done <==> Queried(run[i], q) || AnyStarved(run, i, q)
  {
    var s := run[i];
    RunInv(run, i);
    if q.CacheKey() in s.memo.done {
      StoredIsSourced(run, i, q);
    }
    if Queried(s, q) {
      var o :| o in s.history && o.question == q;
      assert CallOk(s, o.of);
    }
    if AnyStarved(run, i, q) {
      var c :| c in s.callers && s.callers[c].question == q && StarvedBy(run, i, c);
      var j :| 0 <= j <= i && Starved(run[j], c);
      StarvedStaysLost(run, j, i, c);
    }
  }

  /** Some starved call for `q` has stored its timeout. */
  predicate Poisoned(run: seq<State>, i: nat, q: Question)
    requires i < |run|
  {
    exists d :: d in run[i].callers && run[i].callers[d].question == q
      && run[i].callers[d].call.Fetched? && StarvedBy(run, i, d)
  }

  /** A later phase asks again exactly when it should: a call that finds no query run for its
      question so far misses, and goes on under the phase it finds, if and only if no starved
      call has stored; else it gets that call's timeout. */
  lemma LaterPhaseAsksAgain(run: seq<State>, i: nat, c: nat)
    requires IsRun(run) && i + 1 < |run| && Next(run[i], run[i + 1], c, Read)
    requires !Queried(run[i], run[i].callers[c].question)
    ensures var q, call := run[i].callers[c].question, run[i + 1].callers[c].call;
      if Poisoned(run, i, q) then call.Hit? && IsTimeout(call.found, q)
      else call.Missed? && run[i + 1].callers[c].base == run[i].memo.phase
  {
    var s, q := run[i], run[i].callers[c].question;
    RunInv(run, i);
    assert CallOk(s, c);
    if q.CacheKey() in s.memo.done {
      StoredIsSourced(run, i, q);
      assert Poisoned(run, i, q);
    }
  }

  /** No key is ever removed. */
  lemma KeysKept(run: seq<State>, i: nat, j: nat)
    requires IsRun(run) && i <= j < |run|
    ensures run[i].memo.done.Keys <= run[j].memo.done.Keys
  {
    RunGrows(run, i, j);
  }

  /** No call for `q` is on its way past a miss. */
  predicate Quiet(s: State, q: Question) {
    forall c :: c in s.callers && s.callers[c].question == q ==>
      !s.callers[c].call.Missed? && !s.callers[c].call.InFlight()
  }

  /** Nothing was added to the history, or another question's outcome. */
  predicate AddedElse(h: seq<Outcome>, h': seq<Outcome>, q: Question) {
    h' == h || (h' != [] && h'[..|h'| - 1] == h && h'[|h'| - 1].question != q)
  }

  lemma QuietStays(s: State, s': State, c: nat, action: Action, q: Question)
    requires Next(s, s', c, action) && q.CacheKey() in s.memo.done && Quiet(s, q)
    ensures Quiet(s', q) && AddedElse(s.history, s'.history, q)
  {
  }

  lemma QuietStep(run: seq<State>, j: nat, q: Question)
    requires IsRun(run) && j + 1 < |run| && q.CacheKey() in run[j].memo.done && Quiet(run[j], q)
    ensures Quiet(run[j + 1], q) && AddedElse(run[j].history, run[j + 1].history, q)
  {
    var c, action := StepAt(run, j);
    QuietStays(run[j], run[j + 1], c, action, q);
  }

  /** The history grew by other questions' outcomes only. */
  predicate GrewElse(h: seq<Outcome>, h': seq<Outcome>, q: Question) {
    h <= h' && forall k :: |h| <= k < |h'| ==> h'[k].question != q
  }

  lemma GrowsOnElse(h: seq<Outcome>, h': seq<Outcome>, h'': seq<Outcome>, q: Question)
    requires GrewElse(h, h', q) && AddedElse(h', h'', q)
    ensures GrewElse(h, h'', q)
  {
    if h'' != h' {
      assert h'' == h' + [h''[|h''| - 1]];
    }
  }

  /** Once a question is in the cache and no call is on its way past a miss, no query for it is
      run again, however many calls follow. */
  lemma {:induction false} NeverAskedAgain(run: seq<State>, i: nat, j: nat, q: Question)
    requires IsRun(run) && i <= j < |run| && q.CacheKey() in run[i].memo.done && Quiet(run[i], q)
    ensures Quiet(run[j], q) && GrewElse(run[i].history, run[j].history, q)
  {
    if i < j {
      NeverAskedAgain(run, i, j - 1, q);
      KeysKept(run, i, j - 1);
      QuietStep(run, j - 1, q);
      GrowsOnElse(run[i].history, run[j - 1].history, run[j].history, q);
    }
  }

  // ----------------------------------------------------- dog within the cap

  lemma SlotsApart(c: nat, d: nat, retry: bool, retry': bool)
    ensures Slot(c, retry) == Slot(d, retry') <==> c == d && retry == retry'
    ensures Slot(c, retry) != OtherSlot(d)
  {
  }

  /** The attempt has not come to the semaphore yet. */
  predicate NotYet(s: State, c: nat, retry: bool) {
    || c !in s.callers
    || s.callers[c].call.Asked? || s.callers[c].call.Missed?
    || (retry && s.callers[c].call.InFlight() && !s.callers[c].call.retry)
  }

  predicate SlotIs(s: State, id: nat, call: Slots.Call) {
    id in s.slots.calls && s.slots.calls[id] == call
  }

  predicate SlotOk(s: State, c: nat, retry: bool) {
    && (NotYet(s, c, retry) ==> Slot(c, retry) !in s.slots.calls)
    && (c in s.callers && s.callers[c].call == Waiting(retry) ==> SlotIs(s, Slot(c, retry), Slots.Waiting))
    && (c in s.callers && s.callers[c].call == Running(retry) ==> SlotIs(s, Slot(c, retry), Slots.Inside))
  }

  /** The semaphore's own invariant holds, and it sees each attempt as it is. */
  ghost predicate SlotsOk(s: State) {
    Slots.Inv(s.slots) && forall c, retry :: SlotOk(s, c, retry)
  }

  predicate SameSlot(s: State, s': State, id: nat) {
    && (id in s.slots.calls <==> id in s'.slots.calls)
    && (id in s.slots.calls ==> s.slots.calls[id] == s'.slots.calls[id])
  }

  /** A step of one call leaves the slots of the others alone. */
  lemma OtherSlotsSame(s: State, s': State, c: nat, action: Action, id: nat)
    requires Next(s, s', c, action) && id != Slot(c, false) && id != Slot(c, true) && id != OtherSlot(c)
    ensures SameSlot(s, s', id)
  {
  }

  lemma FirstSlotOk(s: State, s': State, c: nat, action: Action)
    requires SlotOk(s, c, false) && SlotOk(s, c, true) && Next(s, s', c, action)
    ensures SlotOk(s', c, false)
  {
    assert Slot(c, true) == Slot(c, false) + 1 == OtherSlot(c) - 1;
  }

  lemma SecondSlotOk(s: State, s': State, c: nat, action: Action)
    requires SlotOk(s, c, false) && SlotOk(s, c, true) && Next(s, s', c, action)
    ensures SlotOk(s', c, true)
  {
    assert Slot(c, true) == Slot(c, false) + 1 == OtherSlot(c) - 1;
  }

  lemma SlotStaysOk(s: State, s': State, c: nat, action: Action, d: nat, retry: bool)
    requires SlotsOk(s) && Next(s, s', c, action)
    ensures SlotOk(s', d, retry)
  {
    assert SlotOk(s, d, retry) && SlotOk(s, c, false) && SlotOk(s, c, true);
    if d == c {
      FirstSlotOk(s, s', c, action);
      SecondSlotOk(s, s', c, action);
    } else {
      SlotsApart(c, d, false, retry);
      SlotsApart(c, d, true, retry);
      SlotsApart(d, c, retry, false);
      OtherSlotsSame(s, s', c, action, Slot(d, retry));
      OthersSame(s, s', c, action);
    }
  }

  lemma SlotsStayOk(s: State, s': State, c: nat, action: Action)
    requires SlotsOk(s) && Next(s, s', c, action)
    ensures SlotsOk(s') && s'.slots.cap == s.slots.cap
  {
    var use := UseOf(s, c, action);
    if use.Some? {
      Slots.NextInv(s.slots, s'.slots, use.value.id, use.value.action);
    }
    forall d, retry ensures SlotOk(s', d, retry) {
      SlotStaysOk(s, s', c, action, d, retry);
    }
  }

  lemma {:induction false} RunSlotsOk(run: seq<State>, i: nat)
    requires IsRun(run) && i < |run|
    ensures SlotsOk(run[i]) && run[i].slots.cap == run[0].slots.cap
  {
    if i == 0 {
      assert Slots.InsideOf(run[0].slots.calls) == {};
    } else {
      RunSlotsOk(run, i - 1);
      var c, action := StepAt(run, i - 1);
      SlotsStayOk(run[i - 1], run[i], c, action);
    }
  }

  function RunningCalls(s: State): set<nat> {
    set c | c in s.callers && s.callers[c].call.Running?
  }

  /** As many calls as `cs` hold as many slots. */
  lemma {:induction false} AsManySlots(s: State, cs: set<nat>) returns (ids: set<nat>)
    requires SlotsOk(s) && cs <= RunningCalls(s)
    ensures |ids| == |cs| && ids <= Slots.InsideOf(s.slots.calls)
    ensures forall id :: id in ids <==> exists c :: c in cs && id == Slot(c, s.callers[c].call.retry)
    decreases cs
  {
    if cs == {} {
      ids := {};
    } else {
      var c :| c in cs;
      var rest := AsManySlots(s, cs - {c});
      var id := Slot(c, s.callers[c].call.retry);
      assert SlotOk(s, c, s.callers[c].call.retry);
      forall d | d in cs - {c} ensures Slot(d, s.callers[d].call.retry) != id {
        SlotsApart(d, c, s.callers[d].call.retry, s.callers[c].call.retry);
      }
      ids := rest + {id};
      assert cs == (cs - {c}) + {c};
    }
  }

  /** Composed with the semaphore: in every run of the lookups, whatever the other tools do with
      their slots, no more dog processes run at once than the cap allows. */
  lemma DogsWithinCap(run: seq<State>, i: nat)
    requires IsRun(run) && i < |run|
    ensures |RunningCalls(run[i])| <= run[0].slots.cap
  {
    RunSlotsOk(run, i);
    var ids := AsManySlots(run[i], RunningCalls(run[i]));
    assert |Slots.InsideOf(run[i].slots.calls) - ids| == |Slots.InsideOf(run[i].slots.calls)| - |ids|;
  }

  /** A call has somewhere to go. */
  predicate CanMove(s: State, c: nat) {
    || Enabled(s, c, Read) || Enabled(s, c, Check) || Enabled(s, c, Begin) || Enabled(s, c, GiveUp)
    || (c in s.callers && Enabled(s, c, Answer(TimedOut(s.callers[c].question))))
    || Enabled(s, c, Settle) || Enabled(s, c, Store)
  }

  predicate Returned(call: Call) {
    call.Hit? || call.Fetched? || call.PhaseOver?
  }

  /** A call that has not returned is held up only in the queue: while every slot is taken and
      its deadline is still ahead. */
  lemma HeldUpOnlyForSlot(run: seq<State>, i: nat, c: nat)
    requires IsRun(run) && i < |run| && c in run[i].callers && !Returned(run[i].callers[c].call)
    ensures var s := run[i];
      !CanMove(s, c) <==>
        && s.callers[c].call.Waiting? && !AttemptOver(s, c, s.callers[c].call.retry)
        && s.slots.tokens == s.slots.cap
  {
    var s := run[i];
    RunSlotsOk(run, i);
    assert SlotOk(s, c, false) && SlotOk(s, c, true);
    if s.callers[c].call.Running? {
      assert Slot(c, s.callers[c].call.retry) in Slots.InsideOf(s.slots.calls);
    }
  }

  // ------------------------------------------------------- a poisoned run

  lemma Extend(run: seq<State>, c: nat, action: Action) returns (longer: seq<State>)
    requires IsRun(run) && Enabled(run[|run| - 1], c, action)
    ensures IsRun(longer) && |longer| == |run| + 1 && longer[..|run|] == run
    ensures longer[|run|] == Effect(run[|run| - 1], c, action)
  {
    var s := run[|run| - 1];
    longer := run + [Effect(s, c, action)];
    assert Next(s, longer[|run|], c, action);
    forall i: nat | i + 1 < |longer| ensures MovesAt(longer, i) {
      if i + 1 < |run| {
        assert MovesAt(run, i);
      }
    }
  }

  /** Another tool has the only slot. */
  lemma SlotTaken() returns (run: seq<State>)
    ensures IsRun(run)
    ensures run[|run| - 1] == State(Memo(0, map[]), {}, {}, {},
      Slots.State(1, 1, map[OtherSlot(0) := Slots.Inside]), map[], [], map[])
  {
    var slots := Slots.State(1, 0, map[]);
    assert Slots.Init(slots);
    run := [State(Memo(0, map[]), {}, {}, {}, slots, map[], [], map[])];
    run := Extend(run, 0, Other(Slots.Arrive));
    run := Extend(run, 0, Other(Slots.Enter));
  }

  /** A call waits for it. */
  lemma CallWaits(q: Question) returns (run: seq<State>)
    requires q.Proper()
    ensures IsRun(run)
    ensures var s := run[|run| - 1];
      && s.memo == Memo(0, map[]) && s.over == {} && s.late == {} && s.history == []
      && s.callers == map[0 := Caller(q, 0, false, Waiting(false))]
      && Slots.Enabled(s.slots, Slot(0, false), Slots.Cancel) && s.slots.tokens == s.slots.cap
  {
    run := SlotTaken();
    run := Extend(run, 0, Ask(q));
    run := Extend(run, 0, Read);
    run := Extend(run, 0, Check);
  }

  /** Its phase ends, and it gives up. */
  lemma CallGivesUp(q: Question) returns (run: seq<State>)
    requires q.Proper()
    ensures IsRun(run)
    ensures var s := run[|run| - 1];
      && s.memo == Memo(0, map[]) && s.over == {0} && s.history == []
      && s.callers == map[0 := Caller(q, 0, false, Tried(false, TimedOut(q)))]
  {
    run := CallWaits(q);
    run := Extend(run, 0, Expire(0));
    run := Extend(run, 0, GiveUp);
  }

  /** Its timeout is stored. */
  lemma TimeoutStored(q: Question) returns (run: seq<State>)
    requires q.Proper()
    ensures IsRun(run)
    ensures var s := run[|run| - 1];
      && s.memo == Memo(0, map[q.CacheKey() := TimedOut(q)]) && s.over == {0} && s.history == []
      && 1 !in s.callers
  {
    run := CallGivesUp(q);
    run := Extend(run, 0, Settle);
    run := Extend(run, 0, Store);
  }

  /** The promise that a later phase retries fails: another tool has the only slot, the first
      phase ends while a call waits for it, and its timeout is stored. The next phase is live,
      no query was ever run, and its caller still gets that timeout. */
  lemma LaterPhasePoisoned(q: Question) returns (run: seq<State>)
    requires q.Proper()
    ensures IsRun(run)
    ensures var s := run[|run| - 1];
      && s.memo.phase == 1 && 1 !in s.over && s.history == []
      && 1 in s.callers && s.callers[1].question == q
      && s.callers[1].call.Hit? && IsTimeout(s.callers[1].call.found, q)
  {
    run := TimeoutStored(q);
    run := Extend(run, 0, SetContext(1));
    run := Extend(run, 1, Ask(q));
    run := Extend(run, 1, Read);
  }
}
