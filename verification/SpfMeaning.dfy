/** What an SPF evaluation without cutoff comes to, field by field, in terms of the records it
    visits: which are visited and how often, and what each adds to the result. */
module SpfMeaning {
  import opened Text
  import opened Records
  import opened SpfTerms
  import opened SpfProblems
  import opened SpfWalk
  import opened SpfVisits
  import opened SpfCharges
  import T = SpfTheorems
  import X = SpfPrefixes

  // ------------------------------------------------------------------- visits

  /** The paths along which records were fetched, in order. */
  function Visits(es: seq<Event>): seq<seq<string>> {
    if es == [] then []
    else (if es[0].Fetch? then [es[0].path] else []) + Visits(es[1..])
  }

  lemma {:induction false} FetchedAreVisits(st: State, es: seq<Event>)
    ensures ApplyAll(st, es).fetched == st.fetched + Visits(es)
    decreases |es|
  {
    if es != [] {
      FetchedAreVisits(Apply(st, es[0]), es[1..]);
    }
  }

  lemma {:induction false} VisitsAre(es: seq<Event>, p: seq<string>)
    ensures multiset(Visits(es))[p] == T.Count(es, Fetch(p))
    ensures p in Visits(es) <==> Fetch(p) in es
  {
    if es != [] {
      VisitsAre(es[1..], p);
      var front := if es[0].Fetch? then [es[0].path] else [];
      assert es == [es[0]] + es[1..];
      assert Visits(es) == front + Visits(es[1..]);
      assert multiset(front)[p] == if es[0] == Fetch(p) then 1 else 0;
    }
  }

  /** The number of a record's terms that count as lookups. */
  function Counted(terms: seq<Term>, hasAll: bool): nat {
    if terms == [] then 0 else (if Looks(terms[0], hasAll) then 1 else 0) + Counted(terms[1..], hasAll)
  }

  function CountedAt(env: Env, path: seq<string>): nat {
    if path == [] then 0
    else match RecordAt(env, path[|path| - 1]) case None => 0 case Some(ts) => Counted(ts, HasAll(ts))
  }

  function TotalCounted(env: Env, paths: seq<seq<string>>): nat {
    if paths == [] then 0 else CountedAt(env, paths[0]) + TotalCounted(env, paths[1..])
  }

  function TotalVoid(env: Env, paths: seq<seq<string>>): nat {
    if paths == [] then 0
    else (if VoidAt(env, paths[0]) then 1 else 0) + TotalVoid(env, paths[1..])
  }

  /** The number of a record's terms that lead to `n` from the end of `path`. */
  function Leading(env: Env, path: seq<string>, terms: seq<Term>, hasAll: bool, n: string): nat {
    if terms == [] then 0
    else (if LeadsTo(env, path, terms[0], hasAll) == Some(n) then 1 else 0) + Leading(env, path, terms[1..], hasAll, n)
  }

  function LeadingAt(env: Env, path: seq<string>, n: string): nat {
    if path == [] then 0
    else
      match RecordAt(env, path[|path| - 1])
      case None => 0
      case Some(ts) => Leading(env, path, ts, HasAll(ts), n)
  }

  // ------------------------------------------------------------------ lookups

  ghost const LOOKUPS := Charge(1, 0, (n: string) => 0, (s: string) => 0, (p: seq<string>) => 0)

  lemma {:induction false} NoProblemsCost(env: Env, c: Charge, ps: seq<Problem>)
    requires forall s :: c.report(s) == 0
    ensures ProblemsCost(env, c, ps) == 0
  {
    if ps != [] {
      NoProblemsCost(env, c, ps[1..]);
    }
  }

  lemma AnswerCostIs(env: Env, c: Charge, n: string)
    requires forall s :: c.report(s) == 0
    ensures AnswerCost(env, c, n) == if IsVoid(env, n) then c.noRecords else 0
  {
  }

  lemma {:induction false} LookupsCost(env: Env, zone: set<string>, path: seq<string>, terms: seq<Term>, hasAll: bool)
    requires FiniteZone(env, zone) && path != []
    ensures TermsCost(env, zone, LOOKUPS, path, terms, hasAll) == Counted(terms, hasAll)
  {
    if terms != [] {
      LookupsCost(env, zone, path, terms[1..], hasAll);
    }
  }

  lemma LookupsRecordCost(env: Env, zone: set<string>, path: seq<string>, terms: seq<Term>)
    requires FiniteZone(env, zone) && path != []
    ensures RecordCost(env, zone, LOOKUPS, path, terms) == Counted(terms, HasAll(terms))
  {
    NoProblemsCost(env, LOOKUPS, X.RedundantProblems(X.SpfPrefixesOf(env.ip, terms), path[|path| - 1], 0));
    LookupsCost(env, zone, path, terms, HasAll(terms));
  }

  lemma LookupsVisitCost(env: Env, zone: set<string>, path: seq<string>)
    requires FiniteZone(env, zone) && path != []
    ensures VisitCost(env, zone, LOOKUPS, path) == CountedAt(env, path)
  {
    AnswerCostIs(env, LOOKUPS, path[|path| - 1]);
    match RecordAt(env, path[|path| - 1])
    case None =>
    case Some(ts) => LookupsRecordCost(env, zone, path, ts);
  }

  lemma LookupsPrice(env: Env, zone: set<string>, e: Event)
    requires FiniteZone(env, zone)
    ensures Price(env, zone, LOOKUPS, e) ==
      (if e == Query then 1 else 0) - if e.Fetch? then CountedAt(env, e.path) else 0
  {
    if e.Fetch? && e.path != [] {
      LookupsVisitCost(env, zone, e.path);
    }
  }

  lemma VisitsStep(es: seq<Event>)
    requires es != []
    ensures es[0].Fetch? ==> Visits(es) != [] && Visits(es)[0] == es[0].path && Visits(es)[1..] == Visits(es[1..])
    ensures !es[0].Fetch? ==> Visits(es) == Visits(es[1..])
  {
  }

  lemma {:induction false} LookupsWeight(env: Env, zone: set<string>, es: seq<Event>)
    requires FiniteZone(env, zone)
    ensures Weight(env, zone, LOOKUPS, es) == T.Count(es, Query) - TotalCounted(env, Visits(es))
  {
    if es != [] {
      LookupsWeight(env, zone, es[1..]);
      LookupsPrice(env, zone, es[0]);
      VisitsStep(es);
    }
  }

  // -------------------------------------------------------------- void lookups

  ghost const VOIDS := Charge(0, 1, (n: string) => 0, (s: string) => 0, (p: seq<string>) => 0)

  lemma {:induction false} VoidsCost(env: Env, zone: set<string>, path: seq<string>, terms: seq<Term>, hasAll: bool)
    requires FiniteZone(env, zone) && path != []
    ensures TermsCost(env, zone, VOIDS, path, terms, hasAll) == 0
  {
    if terms != [] {
      VoidsCost(env, zone, path, terms[1..], hasAll);
    }
  }

  lemma VoidsRecordCost(env: Env, zone: set<string>, path: seq<string>, terms: seq<Term>)
    requires FiniteZone(env, zone) && path != []
    ensures RecordCost(env, zone, VOIDS, path, terms) == 0
  {
    NoProblemsCost(env, VOIDS, X.RedundantProblems(X.SpfPrefixesOf(env.ip, terms), path[|path| - 1], 0));
    VoidsCost(env, zone, path, terms, HasAll(terms));
  }

  predicate VoidAt(env: Env, path: seq<string>) {
    path != [] && IsVoid(env, path[|path| - 1])
  }

  lemma VoidsVisitCost(env: Env, zone: set<string>, path: seq<string>)
    requires FiniteZone(env, zone) && path != []
    ensures VisitCost(env, zone, VOIDS, path) == if VoidAt(env, path) then 1 else 0
  {
    AnswerCostIs(env, VOIDS, path[|path| - 1]);
    match RecordAt(env, path[|path| - 1])
    case None =>
    case Some(ts) => VoidsRecordCost(env, zone, path, ts);
  }

  lemma VoidsPrice(env: Env, zone: set<string>, e: Event)
    requires FiniteZone(env, zone)
    ensures Price(env, zone, VOIDS, e) ==
      (if e == NoRecords then 1 else 0) - if e.Fetch? && VoidAt(env, e.path) then 1 else 0
  {
    if e.Fetch? && e.path != [] {
      VoidsVisitCost(env, zone, e.path);
    }
  }

  lemma {:induction false} VoidsWeight(env: Env, zone: set<string>, es: seq<Event>)
    requires FiniteZone(env, zone)
    ensures Weight(env, zone, VOIDS, es) == T.Count(es, NoRecords) - TotalVoid(env, Visits(es))
  {
    if es != [] {
      VoidsWeight(env, zone, es[1..]);
      VoidsPrice(env, zone, es[0]);
      VisitsStep(es);
    }
  }

  // ------------------------------------------------------- which visits there are

  ghost function VisitsTo(target: seq<string>): Charge {
    Charge(0, 0, (n: string) => 0, (s: string) => 0, (p: seq<string>) => if p == target then 1 else 0)
  }

  lemma {:induction false} VisitsCost(
    env: Env, zone: set<string>, parent: seq<string>, n: string, path: seq<string>, terms: seq<Term>, hasAll: bool)
    requires FiniteZone(env, zone) && path != []
    ensures TermsCost(env, zone, VisitsTo(parent + [n]), path, terms, hasAll) ==
      if path == parent then Leading(env, path, terms, hasAll, n) else 0
  {
    if terms != [] {
      VisitsCost(env, zone, parent, n, path, terms[1..], hasAll);
      var to := LeadsTo(env, path, terms[0], hasAll);
      if to.Some? {
        var p, q := path + [to.value], parent + [n];
        assert p == q ==> p[..|path|] == path && q[..|parent|] == parent && p[|path|] == q[|parent|];
      }
    }
  }

  lemma VisitsRecordCost(
    env: Env, zone: set<string>, parent: seq<string>, n: string, path: seq<string>, terms: seq<Term>)
    requires FiniteZone(env, zone) && path != []
    ensures RecordCost(env, zone, VisitsTo(parent + [n]), path, terms) ==
      if path == parent then Leading(env, path, terms, HasAll(terms), n) else 0
  {
    var c := VisitsTo(parent + [n]);
    NoProblemsCost(env, c, X.RedundantProblems(X.SpfPrefixesOf(env.ip, terms), path[|path| - 1], 0));
    VisitsCost(env, zone, parent, n, path, terms, HasAll(terms));
  }

  lemma VisitsVisitCost(env: Env, zone: set<string>, parent: seq<string>, n: string, path: seq<string>)
    requires FiniteZone(env, zone) && path != []
    ensures VisitCost(env, zone, VisitsTo(parent + [n]), path) ==
      if path == parent then LeadingAt(env, parent, n) else 0
  {
    AnswerCostIs(env, VisitsTo(parent + [n]), path[|path| - 1]);
    match RecordAt(env, path[|path| - 1])
    case None =>
    case Some(ts) => VisitsRecordCost(env, zone, parent, n, path, ts);
  }

  lemma VisitPrice(env: Env, zone: set<string>, parent: seq<string>, n: string, e: Event)
    requires FiniteZone(env, zone)
    ensures Price(env, zone, VisitsTo(parent + [n]), e) ==
      (if e == Fetch(parent + [n]) then 1 else 0) - if e == Fetch(parent) then LeadingAt(env, parent, n) else 0
  {
    if e.Fetch? && e.path != [] {
      VisitsVisitCost(env, zone, parent, n, e.path);
    }
  }

  /** The visits of two paths among events, weighed. */
  function Balance(es: seq<Event>, child: seq<string>, parent: seq<string>, m: nat): int {
    T.Count(es, Fetch(child)) - T.Count(es, Fetch(parent)) * m
  }

  lemma BalanceStep(es: seq<Event>, child: seq<string>, parent: seq<string>, m: nat)
    requires es != []
    ensures Balance(es, child, parent, m) == Balance(es[1..], child, parent, m)
      + (if es[0] == Fetch(child) then 1 else 0) - if es[0] == Fetch(parent) then m else 0
  {
    OneMore(T.Count(es[1..], Fetch(parent)), m);
  }

  lemma {:induction false} VisitsWeight(env: Env, zone: set<string>, parent: seq<string>, n: string, es: seq<Event>)
    requires FiniteZone(env, zone)
    ensures Weight(env, zone, VisitsTo(parent + [n]), es)
         == Balance(es, parent + [n], parent, LeadingAt(env, parent, n))
  {
    if es != [] {
      VisitsWeight(env, zone, parent, n, es[1..]);
      VisitPrice(env, zone, parent, n, es[0]);
      BalanceStep(es, parent + [n], parent, LeadingAt(env, parent, n));
    }
  }

  lemma OneMore(k: nat, m: nat)
    ensures (k + 1) * m == k * m + m
  {
  }

  // ----------------------------------------------------------------- includes

  ghost function IncludesOf(n: string): Charge {
    Charge(0, 0, (m: string) => if m == n then 1 else 0, (s: string) => 0,
      (p: seq<string>) => if p != [] && p[|p| - 1] == n then -1 else 0)
  }

  function TotalEnding(paths: seq<seq<string>>, n: string): nat {
    if paths == [] then 0
    else (if EndsAt(paths[0], n) then 1 else 0) + TotalEnding(paths[1..], n)
  }

  lemma {:induction false} EndingExists(paths: seq<seq<string>>, n: string)
    ensures TotalEnding(paths, n) > 0 <==> exists p :: p in paths && EndsAt(p, n)
  {
    if paths != [] {
      EndingExists(paths[1..], n);
      assert forall p :: p in paths <==> p == paths[0] || p in paths[1..];
    }
  }

  lemma {:induction false} IncludesCost(
    env: Env, zone: set<string>, n: string, path: seq<string>, terms: seq<Term>, hasAll: bool)
    requires FiniteZone(env, zone) && path != []
    ensures TermsCost(env, zone, IncludesOf(n), path, terms, hasAll) == 0
  {
    if terms != [] {
      IncludesCost(env, zone, n, path, terms[1..], hasAll);
    }
  }

  lemma IncludesRecordCost(env: Env, zone: set<string>, n: string, path: seq<string>, terms: seq<Term>)
    requires FiniteZone(env, zone) && path != []
    ensures RecordCost(env, zone, IncludesOf(n), path, terms) == 0
  {
    NoProblemsCost(env, IncludesOf(n), X.RedundantProblems(X.SpfPrefixesOf(env.ip, terms), path[|path| - 1], 0));
    IncludesCost(env, zone, n, path, terms, HasAll(terms));
  }

  predicate EndsAt(path: seq<string>, n: string) {
    path != [] && path[|path| - 1] == n
  }

  lemma IncludesVisitCost(env: Env, zone: set<string>, n: string, path: seq<string>)
    requires FiniteZone(env, zone) && path != []
    ensures VisitCost(env, zone, IncludesOf(n), path) == 0
  {
    AnswerCostIs(env, IncludesOf(n), path[|path| - 1]);
    match RecordAt(env, path[|path| - 1])
    case None =>
    case Some(ts) => IncludesRecordCost(env, zone, n, path, ts);
  }

  lemma IncludesPrice(env: Env, zone: set<string>, n: string, e: Event)
    requires FiniteZone(env, zone)
    ensures Price(env, zone, IncludesOf(n), e) ==
      (if e == Include(n) then 1 else 0) - if e.Fetch? && EndsAt(e.path, n) then 1 else 0
  {
    if e.Fetch? && e.path != [] {
      IncludesVisitCost(env, zone, n, e.path);
    }
  }

  lemma {:induction false} IncludesWeight(env: Env, zone: set<string>, n: string, es: seq<Event>)
    requires FiniteZone(env, zone)
    ensures Weight(env, zone, IncludesOf(n), es) == T.Count(es, Include(n)) - TotalEnding(Visits(es), n)
  {
    if es != [] {
      IncludesWeight(env, zone, n, es[1..]);
      IncludesPrice(env, zone, n, es[0]);
      VisitsStep(es);
    }
  }

  // ----------------------------------------------------------------- problems

  ghost function ReportsOf(text: string): Charge {
    Charge(0, 0, (n: string) => 0, (s: string) => if s == text then 1 else 0, (p: seq<string>) => 0)
  }

  /** A term of the record is reported in these words. */
  ghost predicate TermReported(
    env: Env, zone: set<string>, path: seq<string>, t: Term, hasAll: bool, text: string)
    requires FiniteZone(env, zone) && path != []
  {
    exists p :: env.render(p) == text && TermReports(env, zone, path, t, hasAll, p)
  }

  /** The record, or a term of it, is reported in these words. */
  ghost predicate Reported(env: Env, zone: set<string>, path: seq<string>, terms: seq<Term>, text: string)
    requires FiniteZone(env, zone) && path != []
  {
    || (exists p :: env.render(p) == text && RecordReports(env, path, terms, p))
    || (exists t :: t in terms && TermReported(env, zone, path, t, HasAll(terms), text))
  }

  /** A visit is reported in these words: the answer, or the record. */
  ghost predicate VisitReported(env: Env, zone: set<string>, path: seq<string>, text: string)
    requires FiniteZone(env, zone)
  {
    && path != []
    && var n := path[|path| - 1];
       || (exists p :: env.render(p) == text && AnswerReports(env, n, p))
       || (RecordAt(env, n).Some? && Reported(env, zone, path, RecordAt(env, n).value, text))
  }

  lemma TermReportedCost(env: Env, zone: set<string>, path: seq<string>, t: Term, hasAll: bool, text: string)
    requires FiniteZone(env, zone) && path != []
    ensures TermReportCost(env, zone, ReportsOf(text), path, t, hasAll) >= 0
    ensures TermReportCost(env, zone, ReportsOf(text), path, t, hasAll) > 0 <==>
      TermReported(env, zone, path, t, hasAll, text)
  {
    var n := path[|path| - 1];
    if t.name == "ptr" && env.render(Ptr) == text {
      assert TermReports(env, zone, path, t, hasAll, Ptr);
    }
    if Unknown(t) && env.render(UnknownMechanism(t.name, n)) == text {
      assert TermReports(env, zone, path, t, hasAll, UnknownMechanism(t.name, n));
    }
    if Refers(t, hasAll) && TargetName(env, t).Some? {
      match TargetName(env, t).value
      case NotAName(message) =>
        assert TermReports(env, zone, path, t, hasAll, InvalidName(Target(t), message));
      case Name(m) =>
        assert m in path ==> TermReports(env, zone, path, t, hasAll, Loop(path, m));
    }
    if IsIncludeMechanism(t) && AllBehind(env, zone, path, t) == "+all" {
      assert TermReports(env, zone, path, t, hasAll, PassAll("include:" + Target(t)));
    }
  }

  lemma {:induction false} TermsReportedCost(
    env: Env, zone: set<string>, path: seq<string>, terms: seq<Term>, hasAll: bool, text: string)
    requires FiniteZone(env, zone) && path != []
    ensures TermsCost(env, zone, ReportsOf(text), path, terms, hasAll) >= 0
    ensures TermsCost(env, zone, ReportsOf(text), path, terms, hasAll) > 0 <==>
      exists t :: t in terms && TermReported(env, zone, path, t, hasAll, text)
  {
    if terms != [] {
      TermsReportedCost(env, zone, path, terms[1..], hasAll, text);
      TermReportedCost(env, zone, path, terms[0], hasAll, text);
      assert forall t :: t in terms <==> t == terms[0] || t in terms[1..];
    }
  }

  lemma {:induction false} ProblemsReportedCost(env: Env, ps: seq<Problem>, text: string)
    ensures ProblemsCost(env, ReportsOf(text), ps) >= 0
    ensures ProblemsCost(env, ReportsOf(text), ps) > 0 <==> exists p :: p in ps && env.render(p) == text
  {
    if ps != [] {
      ProblemsReportedCost(env, ps[1..], text);
      assert forall p :: p in ps <==> p == ps[0] || p in ps[1..];
    }
  }

  lemma ReportedCost(env: Env, zone: set<string>, path: seq<string>, terms: seq<Term>, text: string)
    requires FiniteZone(env, zone) && path != []
    ensures RecordCost(env, zone, ReportsOf(text), path, terms) >= 0
    ensures RecordCost(env, zone, ReportsOf(text), path, terms) > 0 <==> Reported(env, zone, path, terms, text)
  {
    var ps := X.RedundantProblems(X.SpfPrefixesOf(env.ip, terms), path[|path| - 1], 0);
    ProblemsReportedCost(env, ps, text);
    TermsReportedCost(env, zone, path, terms, HasAll(terms), text);
    if |path| == 1 && !HasAll(terms) && !HasRedirectModifier(terms) {
      assert RecordReports(env, path, terms, NoAll);
    }
    if p :| p in ps && env.render(p) == text {
      assert RecordReports(env, path, terms, p);
    }
  }

  lemma AnswerReportedCost(env: Env, n: string, text: string)
    ensures AnswerCost(env, ReportsOf(text), n) >= 0
    ensures AnswerCost(env, ReportsOf(text), n) > 0 <==> exists p :: env.render(p) == text && AnswerReports(env, n, p)
  {
    var octets := AnswerOctets(env.lookup(n));
    assert Unanswered(env, n) ==> AnswerReports(env, n, Unchecked(n));
    assert !Unanswered(env, n) && RecordAt(env, n).None? ==> AnswerReports(env, n, Missing(n));
    assert RecordAt(env, n).Some? && octets > 512 ==> AnswerReports(env, n, IncludeOver(n, octets));
  }

  lemma VisitReportedCost(env: Env, zone: set<string>, path: seq<string>, text: string)
    requires FiniteZone(env, zone) && path != []
    ensures VisitCost(env, zone, ReportsOf(text), path) >= 0
    ensures VisitCost(env, zone, ReportsOf(text), path) > 0 <==> VisitReported(env, zone, path, text)
  {
    var n := path[|path| - 1];
    AnswerReportedCost(env, n, text);
    if RecordAt(env, n).Some? {
      ReportedCost(env, zone, path, RecordAt(env, n).value, text);
    }
  }

  /** What the visits of `es` are reported for. */
  ghost function VisitsCosts(env: Env, zone: set<string>, text: string, es: seq<Event>): int
    requires FiniteZone(env, zone)
  {
    if es == [] then 0
    else
      (if es[0].Fetch? && es[0].path != [] then VisitCost(env, zone, ReportsOf(text), es[0].path) else 0)
      + VisitsCosts(env, zone, text, es[1..])
  }

  lemma ReportsPrice(env: Env, zone: set<string>, text: string, e: Event)
    requires FiniteZone(env, zone)
    ensures Price(env, zone, ReportsOf(text), e) == (if e == Report(text) then 1 else 0)
      - if e.Fetch? && e.path != [] then VisitCost(env, zone, ReportsOf(text), e.path) else 0
  {
  }

  lemma {:induction false} VisitsReported(env: Env, zone: set<string>, text: string, es: seq<Event>)
    requires FiniteZone(env, zone)
    ensures Weight(env, zone, ReportsOf(text), es) == T.Count(es, Report(text)) - VisitsCosts(env, zone, text, es)
    ensures VisitsCosts(env, zone, text, es) >= 0
    ensures VisitsCosts(env, zone, text, es) > 0 <==>
      exists p :: Fetch(p) in es && VisitReported(env, zone, p, text)
  {
    if es != [] {
      VisitsReported(env, zone, text, es[1..]);
      ReportsPrice(env, zone, text, es[0]);
      assert forall e :: e in es <==> e == es[0] || e in es[1..];
      if es[0].Fetch? && es[0].path != [] {
        VisitReportedCost(env, zone, es[0].path, text);
      }
    }
  }

  // ------------------------------------------------------------ the evaluation

  /** The events of the walk of an evaluation. */
  function WalkEvents(env: Env, zone: set<string>, domain: string, terms: seq<Term>): seq<Event>
    requires FiniteZone(env, zone)
  {
    TraceWalk(env, zone, terms, [BareName(env, domain)]).events
  }

  /** The paths along which the evaluation without cutoff visits records behind the apex. */
  function Visited(env: Env, zone: set<string>, domain: string, txt: Lookup): seq<seq<string>>
    requires FiniteZone(env, zone)
  {
    if SpfRecords(txt.records) == [] then [] else UncutEvaluation(env, zone, domain, txt).st.fetched
  }

  lemma {:induction false} ReportsVisitNothing(es: seq<Event>)
    requires forall i :: 0 <= i < |es| ==> es[i].Report?
    ensures Visits(es) == []
  {
    if es != [] {
      ReportsVisitNothing(es[1..]);
    }
  }

  predicate OnlyReports(es: seq<Event>) {
    forall i :: 0 <= i < |es| ==> es[i].Report?
  }

  /** The state after three stretches of events, the first and the last of which only report. */
  function After(xs: seq<Event>, es: seq<Event>, zs: seq<Event>): State {
    ApplyAll(ApplyAll(ApplyAll(INITIAL, xs), es), zs)
  }

  lemma AfterCounts(xs: seq<Event>, es: seq<Event>, zs: seq<Event>)
    requires OnlyReports(xs) && OnlyReports(zs)
    ensures var st := After(xs, es, zs);
      st.fetched == Visits(es) && st.lookups == T.Count(es, Query) && st.void == T.Count(es, NoRecords)
  {
    var st0 := ApplyAll(INITIAL, xs);
    var st1 := ApplyAll(st0, es);
    ReportsKeepCounts(INITIAL, xs);
    ReportsKeepCounts(st1, zs);
    ReportsVisitNothing(xs);
    ReportsVisitNothing(zs);
    FetchedAreVisits(INITIAL, xs);
    FetchedAreVisits(st0, es);
    FetchedAreVisits(st1, zs);
    T.StateIsTally(st0, es);
  }

  lemma AfterIncludes(xs: seq<Event>, es: seq<Event>, zs: seq<Event>, n: string)
    requires OnlyReports(xs) && OnlyReports(zs)
    ensures n in After(xs, es, zs).includes <==> Include(n) in es
  {
    T.StateIsTally(INITIAL, xs);
    T.StateIsTally(ApplyAll(INITIAL, xs), es);
    T.StateIsTally(ApplyAll(ApplyAll(INITIAL, xs), es), zs);
  }

  lemma AfterProblems(xs: seq<Event>, es: seq<Event>, zs: seq<Event>, text: string)
    ensures text in After(xs, es, zs).problems <==> Report(text) in xs || Report(text) in es || Report(text) in zs
  {
    T.StateIsTally(INITIAL, xs);
    T.StateIsTally(ApplyAll(INITIAL, xs), es);
    T.StateIsTally(ApplyAll(ApplyAll(INITIAL, xs), es), zs);
  }

  // --------------------------------------------------- opening and closing

  /** What the answer for the apex is reported for, before its record is read. */
  predicate ApexReports(txt: Lookup, p: Problem) {
    var octets := AnswerOctets(txt);
    match p
    case MultipleRecords => |SpfRecords(txt.records)| > 1
    case ApexOver(n) => n == octets && octets > 512
    case ApexNear(n) => n == octets && 450 < octets <= 512
    case _ => false
  }

  /** What the evaluation as a whole is reported for. */
  predicate ResultReports(lookups: nat, voids: nat, all: string, via: string, p: Problem) {
    match p
    case PassAll(through) => through == via && all != "" && all[0] == '+'
    case NeutralAll(through) => through == via && all != "" && all[0] == '?'
    case LookupLimit(n) => n == lookups && lookups > 10
    case VoidLimit(n) => n == voids && voids > 2
    case _ => false
  }

  lemma OpeningReports(env: Env, txt: Lookup, text: string)
    ensures OnlyReports(Opening(env, txt))
    ensures Report(text) in Opening(env, txt) <==> exists p :: env.render(p) == text && ApexReports(txt, p)
  {
    var octets := AnswerOctets(txt);
    assert |SpfRecords(txt.records)| > 1 ==> ApexReports(txt, MultipleRecords);
    assert octets > 512 ==> ApexReports(txt, ApexOver(octets));
    assert 450 < octets <= 512 ==> ApexReports(txt, ApexNear(octets));
  }

  lemma AllReports(env: Env, o: Outcome, text: string)
    ensures OnlyReports(AllVerdict(env, o))
    ensures Report(text) in AllVerdict(env, o) <==>
      (o.all != "" && o.all[0] == '+' && env.render(PassAll(o.via)) == text)
      || (o.all != "" && o.all[0] == '?' && env.render(NeutralAll(o.via)) == text)
  {
    if o.all != "" {
      assert o.all[..1] == "+" <==> o.all[0] == '+';
      assert o.all[..1] == "?" <==> o.all[0] == '?';
    }
  }

  lemma ClosingReports(env: Env, o: Outcome, text: string)
    ensures OnlyReports(Closing(env, o))
    ensures Report(text) in Closing(env, o) <==>
      exists p :: env.render(p) == text && ResultReports(o.st.lookups, o.st.void, o.all, o.via, p)
  {
    AllReports(env, o, text);
    assert ResultReports(o.st.lookups, o.st.void, o.all, o.via, LookupLimit(o.st.lookups)) <==> o.st.lookups > 10;
    assert ResultReports(o.st.lookups, o.st.void, o.all, o.via, VoidLimit(o.st.void)) <==> o.st.void > 2;
    assert ResultReports(o.st.lookups, o.st.void, o.all, o.via, PassAll(o.via)) <==> o.all != "" && o.all[0] == '+';
    assert ResultReports(o.st.lookups, o.st.void, o.all, o.via, NeutralAll(o.via)) <==> o.all != "" && o.all[0] == '?';
  }

  // ------------------------------------------------------------- main results

  /** The terms of the apex record. */
  function ApexTerms(txt: Lookup): seq<Term>
    requires SpfRecords(txt.records) != []
  {
    ParseTerms(SpfRecords(txt.records)[0])
  }

  /** The outcome of the uncut walk. */
  ghost function UncutOutcome(env: Env, zone: set<string>, domain: string, txt: Lookup): Outcome
    requires SpfRecords(txt.records) != [] && FiniteZone(env, zone)
  {
    var terms, path := ApexTerms(txt), [BareName(env, domain)];
    var st := ApplyAll(ApplyAll(INITIAL, Opening(env, txt)), WalkEvents(env, zone, domain, terms));
    Outcome(st, EndAll(env, zone, path, terms), EndVia(env, zone, path, terms))
  }

  lemma UncutIsFinished(env: Env, zone: set<string>, domain: string, txt: Lookup)
    requires SpfRecords(txt.records) != [] && FiniteZone(env, zone)
    ensures var o := UncutOutcome(env, zone, domain, txt);
      && UncutEvaluation(env, zone, domain, txt) == Finish(env, o)
      && EvaluateUncut(env, zone, domain, txt) == Result(txt, Finish(env, o))
      && Finish(env, o).st == After(Opening(env, txt), WalkEvents(env, zone, domain, ApexTerms(txt)), Closing(env, o))
  {
    WalkAll(env, zone, ApexTerms(txt), [BareName(env, domain)]);
  }

  lemma VisitedAre(env: Env, zone: set<string>, domain: string, txt: Lookup)
    requires SpfRecords(txt.records) != [] && FiniteZone(env, zone)
    ensures Visited(env, zone, domain, txt) == Visits(WalkEvents(env, zone, domain, ApexTerms(txt)))
  {
    var o := UncutOutcome(env, zone, domain, txt);
    UncutIsFinished(env, zone, domain, txt);
    OpeningReports(env, txt, "");
    ClosingReports(env, o, "");
    AfterCounts(Opening(env, txt), WalkEvents(env, zone, domain, ApexTerms(txt)), Closing(env, o));
  }

  /** Section 4.6.4 of RFC 7208: the lookups are the counted terms of the apex record and of
      every record visited behind it, once for each visit. */
  lemma LookupsAreCounted(env: Env, zone: set<string>, domain: string, txt: Lookup)
    requires SpfRecords(txt.records) != [] && FiniteZone(env, zone)
    ensures EvaluateUncut(env, zone, domain, txt).lookups ==
      Counted(ApexTerms(txt), HasAll(ApexTerms(txt))) + TotalCounted(env, Visited(env, zone, domain, txt))
  {
    var terms, o := ApexTerms(txt), UncutOutcome(env, zone, domain, txt);
    var es := WalkEvents(env, zone, domain, terms);
    UncutIsFinished(env, zone, domain, txt);
    VisitedAre(env, zone, domain, txt);
    OpeningReports(env, txt, "");
    ClosingReports(env, o, "");
    AfterCounts(Opening(env, txt), es, Closing(env, o));
    WalkWeight(env, zone, LOOKUPS, terms, [BareName(env, domain)]);
    LookupsRecordCost(env, zone, [BareName(env, domain)], terms);
    LookupsWeight(env, zone, es);
  }

  /** The void lookups are the visits whose answer is definite and empty. */
  lemma VoidsAreCounted(env: Env, zone: set<string>, domain: string, txt: Lookup)
    requires SpfRecords(txt.records) != [] && FiniteZone(env, zone)
    ensures EvaluateUncut(env, zone, domain, txt).voidLookups == TotalVoid(env, Visited(env, zone, domain, txt))
  {
    var terms, o := ApexTerms(txt), UncutOutcome(env, zone, domain, txt);
    var es := WalkEvents(env, zone, domain, terms);
    UncutIsFinished(env, zone, domain, txt);
    VisitedAre(env, zone, domain, txt);
    OpeningReports(env, txt, "");
    ClosingReports(env, o, "");
    AfterCounts(Opening(env, txt), es, Closing(env, o));
    WalkWeight(env, zone, VOIDS, terms, [BareName(env, domain)]);
    VoidsRecordCost(env, zone, [BareName(env, domain)], terms);
    VoidsWeight(env, zone, es);
  }

  /** A domain is visited behind a path once for every visit of that path and every term there
      that leads to it, the apex record being visited once. */
  lemma VisitsAreExact(env: Env, zone: set<string>, domain: string, txt: Lookup, path: seq<string>, n: string)
    requires SpfRecords(txt.records) != [] && FiniteZone(env, zone)
    ensures var visited, terms := multiset(Visited(env, zone, domain, txt)), ApexTerms(txt);
      visited[path + [n]] == visited[path] * LeadingAt(env, path, n)
        + if path == [BareName(env, domain)] then Leading(env, path, terms, HasAll(terms), n) else 0
  {
    var terms, apex := ApexTerms(txt), [BareName(env, domain)];
    var es := WalkEvents(env, zone, domain, terms);
    VisitedAre(env, zone, domain, txt);
    VisitsAre(es, path + [n]);
    VisitsAre(es, path);
    WalkWeight(env, zone, VisitsTo(path + [n]), terms, apex);
    VisitsRecordCost(env, zone, path, n, apex, terms);
    VisitsWeight(env, zone, path, n, es);
  }

  /** The includes are the domains visited. */
  lemma IncludesAreVisited(env: Env, zone: set<string>, domain: string, txt: Lookup, n: string)
    requires SpfRecords(txt.records) != [] && FiniteZone(env, zone)
    ensures n in EvaluateUncut(env, zone, domain, txt).includes <==>
      exists p :: p in Visited(env, zone, domain, txt) && EndsAt(p, n)
  {
    var terms, o := ApexTerms(txt), UncutOutcome(env, zone, domain, txt);
    var es := WalkEvents(env, zone, domain, terms);
    UncutIsFinished(env, zone, domain, txt);
    VisitedAre(env, zone, domain, txt);
    OpeningReports(env, txt, "");
    ClosingReports(env, o, "");
    AfterIncludes(Opening(env, txt), es, Closing(env, o), n);
    WalkWeight(env, zone, IncludesOf(n), terms, [BareName(env, domain)]);
    IncludesRecordCost(env, zone, n, [BareName(env, domain)], terms);
    IncludesWeight(env, zone, n, es);
    EndingExists(Visits(es), n);
    CountIn(es, Include(n));
  }

  lemma {:induction false} CountIn(es: seq<Event>, e: Event)
    ensures T.Count(es, e) > 0 <==> e in es
  {
    if es != [] {
      CountIn(es[1..], e);
      assert e in es <==> e == es[0] || e in es[1..];
    }
  }

  /** The all is the one the apex record ends with. */
  lemma AllIsWhereItEnds(env: Env, zone: set<string>, domain: string, txt: Lookup)
    requires SpfRecords(txt.records) != [] && FiniteZone(env, zone)
    ensures EvaluateUncut(env, zone, domain, txt).all == EndAll(env, zone, [BareName(env, domain)], ApexTerms(txt))
  {
    UncutIsFinished(env, zone, domain, txt);
  }

  /** Some problem worded `text` has its cause in the answers of this evaluation. */
  ghost predicate Caused(env: Env, zone: set<string>, domain: string, txt: Lookup, text: string)
    requires SpfRecords(txt.records) != [] && FiniteZone(env, zone)
  {
    var terms, apex := ApexTerms(txt), [BareName(env, domain)];
    var r := EvaluateUncut(env, zone, domain, txt);
    || (exists p :: env.render(p) == text && ApexReports(txt, p))
    || Reported(env, zone, apex, terms, text)
    || (exists p :: p in Visited(env, zone, domain, txt) && VisitReported(env, zone, p, text))
    || (exists p :: env.render(p) == text
          && ResultReports(r.lookups, r.voidLookups, r.all, EndVia(env, zone, apex, terms), p))
  }

  /** The problems are exactly those with a cause: at the apex, on a visit, or in the result. */
  lemma ProblemsAreCaused(env: Env, zone: set<string>, domain: string, txt: Lookup, text: string)
    requires SpfRecords(txt.records) != [] && FiniteZone(env, zone)
    ensures text in EvaluateUncut(env, zone, domain, txt).problems <==> Caused(env, zone, domain, txt, text)
  {
    var terms, o := ApexTerms(txt), UncutOutcome(env, zone, domain, txt);
    var es := WalkEvents(env, zone, domain, terms);
    UncutIsFinished(env, zone, domain, txt);
    T.FinishKeepsCounts(env, o);
    OpeningReports(env, txt, text);
    ClosingReports(env, o, text);
    AfterProblems(Opening(env, txt), es, Closing(env, o), text);
    WalkReported(env, zone, domain, txt, text);
  }

  lemma WalkReported(env: Env, zone: set<string>, domain: string, txt: Lookup, text: string)
    requires SpfRecords(txt.records) != [] && FiniteZone(env, zone)
    ensures var terms, apex := ApexTerms(txt), [BareName(env, domain)];
      Report(text) in WalkEvents(env, zone, domain, terms) <==>
        || Reported(env, zone, apex, terms, text)
        || exists p :: p in Visited(env, zone, domain, txt) && VisitReported(env, zone, p, text)
  {
    var terms, apex := ApexTerms(txt), [BareName(env, domain)];
    var es := WalkEvents(env, zone, domain, terms);
    VisitedAre(env, zone, domain, txt);
    WalkWeight(env, zone, ReportsOf(text), terms, apex);
    ReportedCost(env, zone, apex, terms, text);
    VisitsReported(env, zone, text, es);
    CountIn(es, Report(text));
    forall p ensures p in Visits(es) <==> Fetch(p) in es {
      VisitsAre(es, p);
    }
  }

  /** The rest of the result, with and without the cutoff: the number of SPF records and the size
      of the apex answer, or nothing at all without an SPF record. */
  lemma RestOfResult(env: Env, zone: set<string>, domain: string, txt: Lookup)
    requires FiniteZone(env, zone)
    ensures var cut, uncut := EvaluateSPF(env, domain, txt), EvaluateUncut(env, zone, domain, txt);
      if SpfRecords(txt.records) == [] then cut == uncut == SPFResult(0, 0, 0, 0, "", [], [])
      else
        && cut.records == uncut.records == |SpfRecords(txt.records)|
        && cut.answerOctets == uncut.answerOctets == AnswerOctets(txt)
  {
  }
}
