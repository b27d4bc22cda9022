/** dialFirst of mail.go: every address is dialled at once, the first connection received is
    kept, later ones are closed. Results arrive in any order over a buffered channel. */
module Dial {
  import opened Text

  datatype Result = Conn(id: nat) | Refused(error: string)

  // ------------------------------------------------------------ the receiver

  /** The connections among `rs`, in order of arrival. */
  function Conns(rs: seq<Result>): seq<nat> {
    if rs == [] then []
    else Conns(rs[..|rs| - 1]) + (if rs[|rs| - 1].Conn? then [rs[|rs| - 1].id] else [])
  }

  datatype Dialled = Won(id: nat) | Lost(error: string)

  /** The result `r` for these arrivals, with `closed` closed: the first connection is kept and
      all others are closed; without one, the last error is left. */
  predicate Settled(arrivals: seq<Result>, r: Dialled, closed: seq<nat>)
    requires arrivals != []
  {
    && (r.Won? <==> Conns(arrivals) != [])
    && (r.Won? ==> [r.id] + closed == Conns(arrivals))
    && (r.Lost? ==> closed == [] && r.error == arrivals[|arrivals| - 1].error)
    && (r.Lost? <==> forall i :: 0 <= i < |arrivals| ==> arrivals[i].Refused?)
  }

  /** The connection `id` is the first to arrive, at place `i`. */
  predicate FirstAt(arrivals: seq<Result>, i: nat, id: nat)
    requires i < |arrivals|
  {
    arrivals[i] == Conn(id) && forall j :: 0 <= j < i ==> arrivals[j].Refused?
  }

  /** The receiving loop, for any order of arrival. Exactly one connection stays open: the
      first received; the dial fails exactly when all did, with the last error. */
  method DialFirst(arrivals: seq<Result>) returns (r: Dialled, closed: seq<nat>)
    requires arrivals != []
    ensures Settled(arrivals, r, closed)
    ensures r.Won? ==> exists i :: 0 <= i < |arrivals| && FirstAt(arrivals, i, r.id)
  {
    var won: Option<nat> := None;
    ghost var first: nat := 0;
    var lastErr := "";
    closed := [];
    for i := 0 to |arrivals|
      invariant Conns(arrivals[..i]) == (if won.Some? then [won.value] else []) + closed
      invariant won.None? ==> closed == []
      invariant won.Some? ==> first < i && FirstAt(arrivals, first, won.value)
      invariant won.None? <==> forall k :: 0 <= k < i ==> arrivals[k].Refused?
      invariant won.None? && i > 0 ==> lastErr == arrivals[i - 1].error
    {
      assert arrivals[..i + 1][..i] == arrivals[..i];
      match arrivals[i] {
        case Refused(error) => lastErr := error;
        case Conn(id) =>
          if won.None? {
            won, first := Some(id), i;
          } else {
            closed := closed + [id];
          }
      }
    }
    assert arrivals[..|arrivals|] == arrivals;
    if won.Some? {
      return Won(won.value), closed;
    }
    return Lost(lastErr), closed;
  }

  // ---------------------------------------------------------- the goroutines

  /** `dialling` addresses still have no result; `channel` holds results sent and not yet
      received. The channel has room for `capacity`, the number of addresses. `sent` are all
      results so far. */
  datatype State = State(
    capacity: nat, dialling: nat, channel: seq<Result>, received: seq<Result>, sent: seq<Result>)

  predicate Start(s: State, addrs: nat) {
    s == State(addrs, addrs, [], [], [])
  }

  /** A dial ends and its result is sent, which needs room; or a result is received. */
  ghost predicate Next(s: State, s': State) {
    (exists r: Result :: Sends(s, s', r)) || Receives(s, s')
  }

  predicate Sends(s: State, s': State, r: Result) {
    && s.dialling > 0 && |s.channel| < s.capacity
    && s' == s.(dialling := s.dialling - 1, channel := s.channel + [r], sent := s.sent + [r])
  }

  predicate Receives(s: State, s': State) {
    && s.channel != [] && |s.received| < s.capacity
    && s' == s.(channel := s.channel[1..], received := s.received + [s.channel[0]])
  }

  ghost predicate IsRun(run: seq<State>, addrs: nat) {
    run != [] && Start(run[0], addrs) && forall i :: 0 <= i < |run| - 1 ==> Next(run[i], run[i + 1])
  }

  lemma {:induction false} ResultsConserved(run: seq<State>, addrs: nat, i: nat)
    requires IsRun(run, addrs) && i < |run|
    ensures run[i].capacity == addrs && run[i].dialling + |run[i].channel| + |run[i].received| == addrs
    ensures run[i].received + run[i].channel == run[i].sent
  {
    if i > 0 {
      ResultsConserved(run, addrs, i - 1);
      assert Next(run[i - 1], run[i - 1 + 1]);
    }
  }

  /** No sender is ever left blocked: whenever a dial is still to send, there is room. */
  lemma SenderNeverBlocks(run: seq<State>, addrs: nat, i: nat)
    requires IsRun(run, addrs) && i < |run| && run[i].dialling > 0
    ensures |run[i].channel| < run[i].capacity
  {
    ResultsConserved(run, addrs, i);
  }

  /** When nothing can move any more, the receiver has every address's result. */
  lemma EndsWithAllReceived(run: seq<State>, addrs: nat, i: nat)
    requires IsRun(run, addrs) && i < |run| && forall s' :: !Next(run[i], s')
    ensures run[i].received == run[i].sent && |run[i].sent| == addrs
    ensures run[i].dialling == 0 && run[i].channel == []
  {
    var s := run[i];
    ResultsConserved(run, addrs, i);
    if s.channel != [] {
      var s' := s.(channel := s.channel[1..], received := s.received + [s.channel[0]]);
      assert Receives(s, s');
      assert Next(s, s');
    } else if s.dialling > 0 {
      var r := Refused("");
      var s' := s.(dialling := s.dialling - 1, channel := s.channel + [r], sent := s.sent + [r]);
      assert Sends(s, s', r);
      assert Next(s, s');
    }
  }

  /** So at the end of any run, every connection any dial made is the one returned or closed,
      and the dial is lost exactly when no dial made one. */
  lemma EveryConnectionAccounted(run: seq<State>, addrs: nat, i: nat, r: Dialled, closed: seq<nat>)
    requires addrs > 0 && IsRun(run, addrs) && i < |run| && forall s' :: !Next(run[i], s')
    requires run[i].received != [] && Settled(run[i].received, r, closed)
    ensures Conns(run[i].sent) == (if r.Won? then [r.id] else []) + closed
    ensures r.Lost? <==> forall x :: x in run[i].sent ==> x.Refused?
  {
    EndsWithAllReceived(run, addrs, i);
  }
}
