/** The events of the uncut walk, weighed against the records it visits. One induction over the
    walk serves for every kind of event: a charge puts a price on each. */
module SpfCharges {
  import opened Text
  import opened Records
  import opened SpfTerms
  import opened SpfProblems
  import opened SpfWalk
  import opened SpfVisits
  import X = SpfPrefixes

  // ------------------------------------------------------------ the ending all

  lemma {:induction false} RecordAllIsFirst(terms: seq<Term>)
    ensures RecordAll(terms) == if HasAll(terms) then terms[FirstAll(terms)].qualifier + "all" else ""
    ensures RecordAll(terms) != "" <==> HasAll(terms)
  {
    if terms != [] {
      RecordAllIsFirst(terms[1..]);
      assert forall i :: 1 <= i < |terms| ==> terms[i] == terms[1..][i - 1];
      assert forall i :: 0 <= i < |terms| - 1 ==> terms[1..][i] == terms[i + 1];
    }
  }

  lemma HasRedirectIsModifier(terms: seq<Term>)
    ensures HasRedirect(terms) <==> HasRedirectModifier(terms)
  {
    assert forall i :: 0 <= i < |terms| ==> (terms[i].IsRedirect() <==> IsRedirectModifier(terms[i]));
  }

  lemma TargetSame(t: Term)
    ensures t.Target() == Target(t)
  {
    assert HasPrefix(t.arg, ":") <==> t.arg != "" && t.arg[0] == ':';
  }

  lemma ReadsRecord(env: Env, n: string)
    ensures Read(env, n, env.lookup(n)).terms == RecordAt(env, n)
  {
    if SpfRecords(env.lookup(n).records) != [] {
      SpfNeedsRecords(env.lookup(n).records);
    }
  }

  /** The all and the way to it after the terms from `k` on. */
  ghost predicate EndsAs(env: Env, zone: set<string>, path: seq<string>, terms: seq<Term>, all: string, via: string)
    requires FiniteZone(env, zone)
  {
    if HasRedirectModifier(terms) then
      var t := terms[LastRedirect(terms)];
      all == AllBehind(env, zone, path, t) && via == if all == "" then "" else "redirect=" + Target(t)
    else all == "" && via == ""
  }

  lemma {:induction false} WalkAll(env: Env, zone: set<string>, terms: seq<Term>, path: seq<string>)
    requires FiniteZone(env, zone) && path != []
    ensures TraceWalk(env, zone, terms, path).all == EndAll(env, zone, path, terms)
    ensures TraceWalk(env, zone, terms, path).via == EndVia(env, zone, path, terms)
    decreases zone - PathSet(path), 3, 0
  {
    RecordAllIsFirst(terms);
    if HasAll(terms) {
      OwnAll(env, zone, terms, RecordAll(terms), path, RecordAll(terms), "");
    } else {
      TermsAll(env, zone, terms, path, "", "");
    }
  }

  lemma {:induction false} OwnAll(
    env: Env, zone: set<string>, terms: seq<Term>, own: string, path: seq<string>, all: string, via: string)
    requires FiniteZone(env, zone) && path != [] && own != ""
    ensures var t := TraceTerms(env, zone, terms, own, path, all, via); t.all == all && t.via == via
    decreases |terms|
  {
    if terms != [] {
      OwnAll(env, zone, terms[1..], own, path, all, via);
    }
  }

  lemma LastRedirectIs(terms: seq<Term>, k: nat)
    requires k < |terms| && IsRedirectModifier(terms[k])
    requires forall j :: k < j < |terms| ==> !IsRedirectModifier(terms[j])
    ensures HasRedirectModifier(terms) && LastRedirect(terms) == k
  {
  }

  lemma LastRedirectTail(terms: seq<Term>)
    requires terms != []
    ensures HasRedirectModifier(terms) <==> IsRedirectModifier(terms[0]) || HasRedirectModifier(terms[1..])
    ensures HasRedirectModifier(terms[1..]) ==>
      terms[LastRedirect(terms)] == terms[1..][LastRedirect(terms[1..])]
    ensures HasRedirectModifier(terms) && !HasRedirectModifier(terms[1..]) ==> terms[LastRedirect(terms)] == terms[0]
  {
    var rest := terms[1..];
    assert forall i :: 1 <= i < |terms| ==> terms[i] == rest[i - 1];
    assert forall i :: 0 <= i < |rest| ==> rest[i] == terms[i + 1];
    if HasRedirectModifier(rest) {
      LastRedirectIs(terms, LastRedirect(rest) + 1);
    } else if IsRedirectModifier(terms[0]) {
      LastRedirectIs(terms, 0);
    }
  }

  /** Without an own all the last redirect decides; until one is met, what was before stands. */
  lemma {:induction false} TermsAll(
    env: Env, zone: set<string>, terms: seq<Term>, path: seq<string>, all: string, via: string)
    requires FiniteZone(env, zone) && path != []
    ensures var t := TraceTerms(env, zone, terms, "", path, all, via);
      if HasRedirectModifier(terms) then EndsAs(env, zone, path, terms, t.all, t.via) else t.all == all && t.via == via
    decreases zone - PathSet(path), 2, |terms|
  {
    if terms != [] {
      var t := terms[0];
      LastRedirectTail(terms);
      if !t.IsRedirect() {
        TermsAll(env, zone, terms[1..], path, all, via);
      } else {
        var r := TraceRedirect(env, zone, t, path);
        TargetSame(t);
        DescendAll(env, zone, t, path);
        TermsAll(env, zone, terms[1..], path, r.all, r.via);
      }
    }
  }

  lemma {:induction false} DescendAll(env: Env, zone: set<string>, t: Term, path: seq<string>)
    requires FiniteZone(env, zone) && path != [] && (IsIncludeMechanism(t) || IsRedirectModifier(t))
    ensures TraceDescend(env, zone, t.Target(), path).1 == AllBehind(env, zone, path, t)
    decreases zone - PathSet(path), 1, 0
  {
    TargetSame(t);
    match LeadsTo(env, path, t, false)
    case None =>
    case Some(n) => EnterAll(env, zone, n, path);
  }

  lemma {:induction false} EnterAll(env: Env, zone: set<string>, n: string, path: seq<string>)
    requires FiniteZone(env, zone) && path != [] && n !in path
    ensures TraceEnter(env, zone, n, path).1 ==
      match RecordAt(env, n) case None => "" case Some(ts) => EndAll(env, zone, path + [n], ts)
    decreases zone - PathSet(path), 0, 0
  {
    ReadsRecord(env, n);
    match RecordAt(env, n)
    case None =>
    case Some(ts) =>
      PathGrows(zone, path, n);
      WalkAll(env, zone, ts, path + [n]);
  }

  // ------------------------------------------------------------------ charges

  /** Prices: of a lookup, a void answer, an include, a text reported, and a visit. */
  datatype Charge = Charge(
    query: int, noRecords: int, included: string -> int, report: string -> int, visit: seq<string> -> int)

  function Cost(c: Charge, env: Env, p: Problem): int {
    c.report(env.render(p))
  }

  function If(b: bool, n: int): int {
    if b then n else 0
  }

  /** What a term is reported for. */
  ghost function TermReportCost(
    env: Env, zone: set<string>, c: Charge, path: seq<string>, t: Term, hasAll: bool): int
    requires FiniteZone(env, zone) && path != []
  {
    If(t.name == "ptr", Cost(c, env, Ptr))
    + If(Unknown(t), Cost(c, env, UnknownMechanism(t.name, path[|path| - 1])))
    + If(Refers(t, hasAll), TargetCost(env, c, path, t))
    + If(IsIncludeMechanism(t) && AllBehind(env, zone, path, t) == "+all",
         Cost(c, env, PassAll("include:" + Target(t))))
  }

  function TargetCost(env: Env, c: Charge, path: seq<string>, t: Term): int {
    match TargetName(env, t)
    case None => 0
    case Some(NotAName(message)) => Cost(c, env, InvalidName(Target(t), message))
    case Some(Name(n)) => If(n in path, Cost(c, env, Loop(path, n)))
  }

  /** A term: its lookup, what it is reported for, and where it leads. */
  ghost function TermCost(env: Env, zone: set<string>, c: Charge, path: seq<string>, t: Term, hasAll: bool): int
    requires FiniteZone(env, zone) && path != []
  {
    If(Looks(t, hasAll), c.query) + TermReportCost(env, zone, c, path, t, hasAll) + LeadCost(env, c, path, t, hasAll)
  }

  function LeadCost(env: Env, c: Charge, path: seq<string>, t: Term, hasAll: bool): int {
    match LeadsTo(env, path, t, hasAll)
    case None => 0
    case Some(n) => c.included(n) + c.visit(path + [n])
  }

  ghost function TermsCost(
    env: Env, zone: set<string>, c: Charge, path: seq<string>, terms: seq<Term>, hasAll: bool): int
    requires FiniteZone(env, zone) && path != []
  {
    if terms == [] then 0
    else TermCost(env, zone, c, path, terms[0], hasAll) + TermsCost(env, zone, c, path, terms[1..], hasAll)
  }

  function ProblemsCost(env: Env, c: Charge, ps: seq<Problem>): int {
    if ps == [] then 0 else Cost(c, env, ps[0]) + ProblemsCost(env, c, ps[1..])
  }

  /** One visit of a record. */
  ghost function RecordCost(env: Env, zone: set<string>, c: Charge, path: seq<string>, terms: seq<Term>): int
    requires FiniteZone(env, zone) && path != []
  {
    ProblemsCost(env, c, X.RedundantProblems(X.SpfPrefixesOf(env.ip, terms), path[|path| - 1], 0))
    + TermsCost(env, zone, c, path, terms, HasAll(terms))
    + If(|path| == 1 && !HasAll(terms) && !HasRedirectModifier(terms), Cost(c, env, NoAll))
  }

  function AnswerCost(env: Env, c: Charge, n: string): int {
    var octets := AnswerOctets(env.lookup(n));
    If(IsVoid(env, n), c.noRecords)
    + If(Unanswered(env, n), Cost(c, env, Unchecked(n)))
    + If(!Unanswered(env, n) && RecordAt(env, n).None?, Cost(c, env, Missing(n)))
    + If(RecordAt(env, n).Some? && octets > 512, Cost(c, env, IncludeOver(n, octets)))
  }

  /** What a visit brings with it: the answer, and the record when there is one. */
  ghost function VisitCost(env: Env, zone: set<string>, c: Charge, path: seq<string>): int
    requires FiniteZone(env, zone) && path != []
  {
    AnswerCost(env, c, path[|path| - 1])
    + match RecordAt(env, path[|path| - 1])
      case None => 0
      case Some(ts) => RecordCost(env, zone, c, path, ts)
  }

  /** The price of an event; a visit is set off against what it brings. */
  ghost function Price(env: Env, zone: set<string>, c: Charge, e: Event): int
    requires FiniteZone(env, zone)
  {
    match e
    case Query => c.query
    case NoRecords => c.noRecords
    case Include(n) => c.included(n)
    case Report(text) => c.report(text)
    case Fetch(path) => if path == [] then 0 else c.visit(path) - VisitCost(env, zone, c, path)
  }

  ghost function Weight(env: Env, zone: set<string>, c: Charge, es: seq<Event>): int
    requires FiniteZone(env, zone)
  {
    if es == [] then 0 else Price(env, zone, c, es[0]) + Weight(env, zone, c, es[1..])
  }

  lemma {:induction false} WeightConcat(env: Env, zone: set<string>, c: Charge, xs: seq<Event>, ys: seq<Event>)
    requires FiniteZone(env, zone)
    ensures Weight(env, zone, c, xs + ys) == Weight(env, zone, c, xs) + Weight(env, zone, c, ys)
  {
    if xs == [] {
      assert xs + ys == ys;
    } else {
      assert (xs + ys)[1..] == xs[1..] + ys;
      WeightConcat(env, zone, c, xs[1..], ys);
    }
  }

  lemma WeightOne(env: Env, zone: set<string>, c: Charge, e: Event)
    requires FiniteZone(env, zone)
    ensures Weight(env, zone, c, [e]) == Price(env, zone, c, e)
  {
    assert [e][1..] == [];
  }

  lemma {:induction false} ReportsWeight(env: Env, zone: set<string>, c: Charge, ps: seq<Problem>)
    requires FiniteZone(env, zone)
    ensures Weight(env, zone, c, Reports(env, ps)) == ProblemsCost(env, c, ps)
  {
    if ps != [] {
      ReportsWeight(env, zone, c, ps[1..]);
      WeightConcat(env, zone, c, [Report(env.render(ps[0]))], Reports(env, ps[1..]));
      WeightOne(env, zone, c, Report(env.render(ps[0])));
    }
  }

  // ------------------------------------------------------- the walk in the balance

  lemma PlainWeight(env: Env, zone: set<string>, c: Charge, path: seq<string>, t: Term, hasAll: bool)
    requires FiniteZone(env, zone) && path != []
    requires !t.IsInclude() && !t.IsAll() && !t.IsRedirect()
    ensures Weight(env, zone, c, PlainTerm(env, t, Last(path))) == TermCost(env, zone, c, path, t, hasAll)
  {
    var es := PlainTerm(env, t, Last(path));
    if t.name == "ptr" {
      assert es == [Query] + [Report(env.render(Ptr))];
      WeightConcat(env, zone, c, [Query], [Report(env.render(Ptr))]);
      WeightOne(env, zone, c, Query);
      WeightOne(env, zone, c, Report(env.render(Ptr)));
    } else if |es| == 1 {
      WeightOne(env, zone, c, es[0]);
      assert es == [es[0]];
    }
  }

  lemma ReadWeight(env: Env, zone: set<string>, c: Charge, n: string)
    requires FiniteZone(env, zone)
    ensures Weight(env, zone, c, Read(env, n, env.lookup(n)).events) == AnswerCost(env, c, n)
  {
    var es := Read(env, n, env.lookup(n)).events;
    ReadsRecord(env, n);
    if IsVoid(env, n) {
      assert es == [NoRecords] + [Report(env.render(Missing(n)))] by {
        if SpfRecords(env.lookup(n).records) != [] {
          SpfNeedsRecords(env.lookup(n).records);
        }
      }
      WeightConcat(env, zone, c, [NoRecords], [Report(env.render(Missing(n)))]);
      WeightOne(env, zone, c, NoRecords);
      WeightOne(env, zone, c, Report(env.render(Missing(n))));
    } else if |es| == 1 {
      WeightOne(env, zone, c, es[0]);
      assert es == [es[0]];
    }
  }

  lemma {:induction false} WalkWeight(env: Env, zone: set<string>, c: Charge, terms: seq<Term>, path: seq<string>)
    requires FiniteZone(env, zone) && path != []
    ensures Weight(env, zone, c, TraceWalk(env, zone, terms, path).events) == RecordCost(env, zone, c, path, terms)
    decreases zone - PathSet(path), 3, 0
  {
    var own := RecordAll(terms);
    var before, after := Redundancies(env, terms, Last(path)), MissingAll(env, terms, path);
    var inner := TraceTerms(env, zone, terms, own, path, own, "").events;
    RecordAllIsFirst(terms);
    HasRedirectIsModifier(terms);
    TermsWeight(env, zone, c, terms, own, path, own, "");
    ReportsWeight(env, zone, c, X.RedundantProblems(X.SpfPrefixesOf(env.ip, terms), Last(path), 0));
    if after != [] {
      WeightOne(env, zone, c, Report(env.render(NoAll)));
    }
    WeightThree(env, zone, c, before, inner, after);
  }

  lemma WeightThree(
    env: Env, zone: set<string>, c: Charge, xs: seq<Event>, ys: seq<Event>, zs: seq<Event>)
    requires FiniteZone(env, zone)
    ensures Weight(env, zone, c, xs + ys + zs)
         == Weight(env, zone, c, xs) + Weight(env, zone, c, ys) + Weight(env, zone, c, zs)
  {
    WeightConcat(env, zone, c, xs + ys, zs);
    WeightConcat(env, zone, c, xs, ys);
  }

  lemma {:induction false} TermsWeight(
    env: Env, zone: set<string>, c: Charge, terms: seq<Term>, own: string, path: seq<string>, all: string, via: string)
    requires FiniteZone(env, zone) && path != []
    ensures Weight(env, zone, c, TraceTerms(env, zone, terms, own, path, all, via).events)
         == TermsCost(env, zone, c, path, terms, own != "")
    decreases zone - PathSet(path), 2, |terms|
  {
    if terms != [] {
      var t, rest := terms[0], terms[1..];
      if !t.IsRedirect() {
        MechanismWeight(env, zone, c, t, path, own != "");
        TermsWeight(env, zone, c, rest, own, path, all, via);
        WeightConcat(env, zone, c, TraceMechanism(env, zone, t, path),
          TraceTerms(env, zone, rest, own, path, all, via).events);
      } else if own != "" {
        TermsWeight(env, zone, c, rest, own, path, all, via);
        assert TermCost(env, zone, c, path, t, true) == 0;
      } else {
        var r := TraceRedirect(env, zone, t, path);
        RedirectWeight(env, zone, c, t, path);
        TermsWeight(env, zone, c, rest, own, path, r.all, r.via);
        WeightConcat(env, zone, c, r.events, TraceTerms(env, zone, rest, own, path, r.all, r.via).events);
      }
    }
  }

  lemma {:induction false} RedirectWeight(env: Env, zone: set<string>, c: Charge, t: Term, path: seq<string>)
    requires FiniteZone(env, zone) && path != [] && t.IsRedirect()
    ensures Weight(env, zone, c, TraceRedirect(env, zone, t, path).events) == TermCost(env, zone, c, path, t, false)
    decreases zone - PathSet(path), 1, 0
  {
    DescendWeight(env, zone, c, t, path, false);
    WeightConcat(env, zone, c, [Query], TraceDescend(env, zone, t.Target(), path).0);
    WeightOne(env, zone, c, Query);
  }

  lemma {:induction false} MechanismWeight(
    env: Env, zone: set<string>, c: Charge, t: Term, path: seq<string>, hasAll: bool)
    requires FiniteZone(env, zone) && path != [] && !t.IsRedirect()
    ensures Weight(env, zone, c, TraceMechanism(env, zone, t, path)) == TermCost(env, zone, c, path, t, hasAll)
    decreases zone - PathSet(path), 1, 0
  {
    if t.IsInclude() {
      var (es, a) := TraceDescend(env, zone, t.Target(), path);
      var note := if a == "+all" then NoteAll(env, "+", "include:" + t.Target()) else [];
      TargetSame(t);
      DescendAll(env, zone, t, path);
      DescendWeight(env, zone, c, t, path, hasAll);
      WeightConcat(env, zone, c, [Query] + es, note);
      WeightConcat(env, zone, c, [Query], es);
      WeightOne(env, zone, c, Query);
      if a == "+all" {
        WeightOne(env, zone, c, Report(env.render(PassAll("include:" + t.Target()))));
      }
    } else if !t.IsAll() {
      PlainWeight(env, zone, c, path, t, hasAll);
    }
  }

  /** A descent costs what its target is reported for, and where it leads. */
  lemma {:induction false} DescendWeight(
    env: Env, zone: set<string>, c: Charge, t: Term, path: seq<string>, hasAll: bool)
    requires FiniteZone(env, zone) && path != [] && Refers(t, hasAll)
    ensures Weight(env, zone, c, TraceDescend(env, zone, t.Target(), path).0)
         == TargetCost(env, c, path, t) + LeadCost(env, c, path, t, hasAll)
    decreases zone - PathSet(path), 0, 1
  {
    TargetSame(t);
    match TargetName(env, t)
    case None =>
    case Some(NotAName(message)) =>
      WeightOne(env, zone, c, Report(env.render(InvalidName(Target(t), message))));
    case Some(Name(n)) =>
      if n in path {
        WeightOne(env, zone, c, Report(env.render(Loop(path, n))));
      } else {
        EnterWeight(env, zone, c, n, path);
        WeightConcat(env, zone, c, [Include(n)], TraceEnter(env, zone, n, path).0);
        WeightOne(env, zone, c, Include(n));
      }
  }

  lemma {:induction false} EnterWeight(env: Env, zone: set<string>, c: Charge, n: string, path: seq<string>)
    requires FiniteZone(env, zone) && path != [] && n !in path
    ensures Weight(env, zone, c, TraceEnter(env, zone, n, path).0) == c.visit(path + [n])
    decreases zone - PathSet(path), 0, 0
  {
    var r, path' := Read(env, n, env.lookup(n)), path + [n];
    ReadsRecord(env, n);
    ReadWeight(env, zone, c, n);
    WeightOne(env, zone, c, Fetch(path'));
    match r.terms
    case None =>
      WeightConcat(env, zone, c, [Fetch(path')], r.events);
    case Some(ts) =>
      PathGrows(zone, path, n);
      var inner := TraceWalk(env, zone, ts, path').events;
      WalkWeight(env, zone, c, ts, path');
      WeightConcat(env, zone, c, [Fetch(path')], r.events + inner);
      WeightConcat(env, zone, c, r.events, inner);
  }
}
