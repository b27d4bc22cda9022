/** The counting semaphore of limitedRunner in runner.go, and of the address slots in run.go:
    a buffered channel whose tokens bound how many calls run at once. */
module Slots {

  /** A call before, in and behind its guarded section. */
  datatype Call = Waiting | Inside | Returned(failed: bool) | Cancelled

  datatype State = State(cap: nat, tokens: nat, calls: map<nat, Call>)

  function InsideOf(calls: map<nat, Call>): set<nat> {
    set c | c in calls && calls[c] == Inside
  }

  predicate Init(s: State) {
    s.cap > 0 && s.tokens == 0 && forall c :: c in s.calls ==> s.calls[c] == Waiting
  }

  /** `Arrive` is a new call, `Cancel` the end of a waiting call's context, `Return` the
      deferred release, whether the inner call failed or not. */
  datatype Action = Arrive | Enter | Cancel | Return(failed: bool)

  predicate Enabled(s: State, c: nat, action: Action) {
    match action
    case Arrive => c !in s.calls
    case Enter => c in s.calls && s.calls[c] == Waiting && s.tokens < s.cap
    case Cancel => c in s.calls && s.calls[c] == Waiting
    case Return(_) => c in s.calls && s.calls[c] == Inside && s.tokens > 0
  }

  function Effect(s: State, c: nat, action: Action): State
    requires Enabled(s, c, action)
  {
    match action
    case Arrive => s.(calls := s.calls[c := Waiting])
    case Enter => s.(tokens := s.tokens + 1, calls := s.calls[c := Inside])
    case Cancel => s.(calls := s.calls[c := Cancelled])
    case Return(failed) => s.(tokens := s.tokens - 1, calls := s.calls[c := Returned(failed)])
  }

  predicate Next(s: State, s': State, c: nat, action: Action) {
    Enabled(s, c, action) && s' == Effect(s, c, action)
  }

  ghost predicate Follows(s: State, s': State) {
    exists c, action :: Next(s, s', c, action)
  }

  ghost predicate IsRun(run: seq<State>) {
    run != [] && Init(run[0]) && forall i :: 0 <= i < |run| - 1 ==> Follows(run[i], run[i + 1])
  }

  /** Tokens held are exactly the calls inside, and never more than the cap. */
  predicate Inv(s: State) {
    s.tokens == |InsideOf(s.calls)| <= s.cap
  }

  lemma InsideAfter(calls: map<nat, Call>, c: nat, call: Call)
    ensures InsideOf(calls[c := call]) == if call == Inside then InsideOf(calls) + {c} else InsideOf(calls) - {c}
  {
  }

  lemma NextInv(s: State, s': State, c: nat, action: Action)
    requires Inv(s) && Next(s, s', c, action)
    ensures Inv(s') && s'.cap == s.cap
  {
    match action {
      case Arrive => InsideAfter(s.calls, c, Waiting);
      case Enter => InsideAfter(s.calls, c, Inside);
      case Cancel => InsideAfter(s.calls, c, Cancelled);
      case Return(failed) => InsideAfter(s.calls, c, Returned(failed));
    }
    assert c in InsideOf(s.calls) <==> action.Return?;
  }

  lemma {:induction false} RunInv(run: seq<State>, i: nat)
    requires IsRun(run) && i < |run|
    ensures Inv(run[i]) && run[i].cap == run[0].cap
  {
    if i == 0 {
      assert InsideOf(run[0].calls) == {};
    } else {
      RunInv(run, i - 1);
      assert Follows(run[i - 1], run[i - 1 + 1]);
      var c, action :| Next(run[i - 1], run[i], c, action);
      NextInv(run[i - 1], run[i], c, action);
    }
  }

  /** At no time are more calls inside than the cap, and a call that cannot enter is waiting
      behind `cap` others. */
  lemma NeverOverCap(run: seq<State>, i: nat)
    requires IsRun(run) && i < |run|
    ensures |InsideOf(run[i].calls)| <= run[0].cap
    ensures run[i].tokens == run[i].cap ==> |InsideOf(run[i].calls)| == run[0].cap
  {
    RunInv(run, i);
  }

  /** Once every call has returned or given up, all tokens are back, failures included. */
  lemma AllTokensReturn(run: seq<State>, i: nat)
    requires IsRun(run) && i < |run|
    requires forall c :: c in run[i].calls ==> run[i].calls[c].Returned? || run[i].calls[c].Cancelled?
    ensures run[i].tokens == 0
  {
    RunInv(run, i);
    assert InsideOf(run[i].calls) == {};
  }

  /** A call inside can always return: its token is there to be given back. */
  lemma ReturnNeverBlocks(run: seq<State>, i: nat, c: nat)
    requires IsRun(run) && i < |run| && c in run[i].calls && run[i].calls[c] == Inside
    ensures run[i].tokens > 0
  {
    RunInv(run, i);
    assert c in InsideOf(run[i].calls);
  }
}
