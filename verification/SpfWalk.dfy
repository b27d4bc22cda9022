/** The SPF evaluation of mail.go as functions: the walk with its cutoff, which the class
    SpfEvaluator refines, and the events of the same walk without any cutoff. */
module SpfWalk {
  import opened Text
  import opened Records
  import opened SpfTerms
  import opened SpfPrefixes
  import opened SpfProblems

  /** What the name normaliser makes of a string. */
  datatype NameResult = Name(ascii: string) | NotAName(message: string)

  /** What the evaluator asks of the outside: TXT lookups by name, the name normaliser, the
      address parsers, and the wording of problems, which SpfProblems.Render gives. */
  datatype Env = Env(lookup: string -> Lookup, dnsName: string -> NameResult, ip: IPParser, render: Problem -> string)

  /** The evaluator's counters and lists, and the paths along which records were fetched. */
  datatype State = State(lookups: nat, void: nat, includes: seq<string>, problems: seq<string>,
    fetched: seq<seq<string>>)

  datatype Outcome = Outcome(st: State, all: string, via: string)

  const PATH_LIMIT := 20
  const MAX_FETCHES := 3 * LOOKUP_LIMIT

  // ------------------------------------------------------------------ events

  datatype Event = Query | NoRecords | Include(name: string) | Report(problem: string) | Fetch(path: seq<string>)

  function AddOnce(xs: seq<string>, x: string): seq<string> {
    if x in xs then xs else xs + [x]
  }

  function Apply(st: State, e: Event): State {
    match e
    case Query => st.(lookups := st.lookups + 1)
    case NoRecords => st.(void := st.void + 1)
    case Include(name) => st.(includes := AddOnce(st.includes, name))
    case Report(problem) => st.(problems := AddOnce(st.problems, problem))
    case Fetch(path) => st.(fetched := st.fetched + [path])
  }

  /** Counting and fetching only go on. */
  predicate Grew(st: State, st': State) {
    st'.lookups >= st.lookups && st.fetched <= st'.fetched
  }

  function ApplyAll(st: State, es: seq<Event>): State
    decreases |es|
  {
    if es == [] then st else ApplyAll(Apply(st, es[0]), es[1..])
  }

  // ---------------------------------------------------------- parts of a walk

  function RecordAll(terms: seq<Term>): string {
    if terms == [] then ""
    else if terms[0].IsAll() then terms[0].qualifier + "all"
    else RecordAll(terms[1..])
  }

  predicate HasRedirect(terms: seq<Term>) {
    exists i :: 0 <= i < |terms| && terms[i].IsRedirect()
  }

  function Reports(env: Env, problems: seq<Problem>): (es: seq<Event>)
    ensures |es| == |problems|
  {
    if problems == [] then [] else [Report(env.render(problems[0]))] + Reports(env, problems[1..])
  }

  /** What a term counts for that references no other record. */
  function PlainTerm(env: Env, t: Term, domain: string): seq<Event> {
    if t.name == "a" || t.name == "mx" || t.name == "exists" then [Query]
    else if t.name == "ptr" then [Query, Report(env.render(Ptr))]
    else if t.name == "ip4" || t.name == "ip6" || t.modifier then []
    else [Report(env.render(UnknownMechanism(t.name, domain)))]
  }

  /** An all that leaves senders unprotected. */
  function NoteAll(env: Env, qualifier: string, via: string): seq<Event> {
    if qualifier == "+" then [Report(env.render(PassAll(via)))]
    else if qualifier == "?" then [Report(env.render(NeutralAll(via)))]
    else []
  }

  function IncludeSize(env: Env, target: string, l: Lookup): seq<Event> {
    var octets := AnswerOctets(l);
    if octets > ANSWER_LIMIT then [Report(env.render(IncludeOver(target, octets)))] else []
  }

  function ApexSize(env: Env, octets: nat): seq<Event> {
    if octets > ANSWER_LIMIT then [Report(env.render(ApexOver(octets)))]
    else if octets > ANSWER_WARN then [Report(env.render(ApexNear(octets)))]
    else []
  }

  /** What a domain's TXT answer shows: what is reported of it, and the terms of its SPF
      record when there is one to walk. */
  datatype Reading = Reading(events: seq<Event>, terms: Option<seq<Term>>)

  function Read(env: Env, name: string, l: Lookup): (r: Reading)
    ensures r.terms.Some? ==> SpfRecords(l.records) != []
  {
    var recs := SpfRecords(l.records);
    if !l.Answered() then Reading([Report(env.render(Unchecked(name)))], None)
    else if !l.HasRecords() then Reading([NoRecords, Report(env.render(Missing(name)))], None)
    else if recs == [] then Reading([Report(env.render(Missing(name)))], None)
    else Reading(IncludeSize(env, name, l), Some(ParseTerms(recs[0])))
  }

  function Redundancies(env: Env, terms: seq<Term>, domain: string): seq<Event> {
    Reports(env, RedundantProblems(SpfPrefixesOf(env.ip, terms), domain, 0))
  }

  function MissingAll(env: Env, terms: seq<Term>, path: seq<string>): seq<Event> {
    if |path| == 1 && RecordAll(terms) == "" && !HasRedirect(terms) then [Report(env.render(NoAll))] else []
  }

  function Last(path: seq<string>): string
    requires path != []
  {
    path[|path| - 1]
  }

  // ------------------------------------------------------ the walk with cutoff

  predicate Cut(st: State, path: seq<string>) {
    st.lookups > MAX_FETCHES || |path| > PATH_LIMIT
  }

  function Walk(env: Env, st: State, terms: seq<Term>, path: seq<string>): (o: Outcome)
    requires path != [] && |path| <= PATH_LIMIT + 1
    ensures Grew(st, o.st)
    decreases PATH_LIMIT + 1 - |path|, 3, 0
  {
    var own := RecordAll(terms);
    ApplyAllLookups(st, Redundancies(env, terms, Last(path)));
    var o := WalkTerms(env, ApplyAll(st, Redundancies(env, terms, Last(path))), terms, own, path, own, "");
    ApplyAllLookups(o.st, MissingAll(env, terms, path));
    o.(st := ApplyAll(o.st, MissingAll(env, terms, path)))
  }

  function WalkTerms(env: Env, st: State, terms: seq<Term>, own: string, path: seq<string>, all: string,
      via: string): (o: Outcome)
    requires path != [] && |path| <= PATH_LIMIT + 1
    ensures Grew(st, o.st)
    decreases PATH_LIMIT + 1 - |path|, 2, |terms|
  {
    if terms == [] then Outcome(st, all, via)
    else
      var t := terms[0];
      if !t.IsRedirect() then WalkTerms(env, WalkMechanism(env, st, t, path), terms[1..], own, path, all, via)
      else if own != "" then WalkTerms(env, st, terms[1..], own, path, all, via)
      else
        var o := WalkRedirect(env, st, t, path);
        WalkTerms(env, o.st, terms[1..], own, path, o.all, o.via)
  }

  /** One turn of the loop over the terms. */
  lemma WalkTermsStep(
    env: Env, st: State, terms: seq<Term>, i: nat, own: string, path: seq<string>, all: string, via: string)
    requires path != [] && |path| <= PATH_LIMIT + 1 && i < |terms|
    ensures var t, rest := terms[i], terms[i + 1..];
      WalkTerms(env, st, terms[i..], own, path, all, via) ==
        if !t.IsRedirect() then WalkTerms(env, WalkMechanism(env, st, t, path), rest, own, path, all, via)
        else if own != "" then WalkTerms(env, st, rest, own, path, all, via)
        else
          var o := WalkRedirect(env, st, t, path);
          WalkTerms(env, o.st, rest, own, path, o.all, o.via)
  {
    assert terms[i..][1..] == terms[i + 1..];
  }

  function WalkRedirect(env: Env, st: State, t: Term, path: seq<string>): (o: Outcome)
    requires path != [] && |path| <= PATH_LIMIT + 1
    ensures Grew(st, o.st)
    decreases PATH_LIMIT + 1 - |path|, 1, 0
  {
    var (st', a) := Descend(env, Apply(st, Query), t.Target(), path);
    if a != "" then Outcome(st', a, "redirect=" + t.Target()) else Outcome(st', "", "")
  }

  function WalkMechanism(env: Env, st: State, t: Term, path: seq<string>): (st': State)
    requires path != [] && |path| <= PATH_LIMIT + 1
    ensures Grew(st, st')
    decreases PATH_LIMIT + 1 - |path|, 1, 0
  {
    if t.IsInclude() then
      var (st1, a) := Descend(env, Apply(st, Query), t.Target(), path);
      if a == "+all" then
        ApplyAllLookups(st1, NoteAll(env, "+", "include:" + t.Target()));
        ApplyAll(st1, NoteAll(env, "+", "include:" + t.Target()))
      else st1
    else if t.IsAll() then st
    else
      ApplyAllLookups(st, PlainTerm(env, t, Last(path)));
      ApplyAll(st, PlainTerm(env, t, Last(path)))
  }

  function Descend(env: Env, st: State, target: string, path: seq<string>): (r: (State, string))
    requires path != [] && |path| <= PATH_LIMIT + 1
    ensures Grew(st, r.0)
    decreases PATH_LIMIT + 1 - |path|, 0, 1
  {
    if '%' in target || target == "" then (st, "")
    else
      match env.dnsName(target)
      case NotAName(message) => (Apply(st, Report(env.render(InvalidName(target, message)))), "")
      case Name(n) =>
        if n in path then (Apply(st, Report(env.render(Loop(path, n)))), "")
        else Enter(env, Apply(st, Include(n)), n, path)
  }

  /** Fetches and walks a domain that is not on the path. */
  function Enter(env: Env, st: State, n: string, path: seq<string>): (r: (State, string))
    requires path != [] && |path| <= PATH_LIMIT + 1
    ensures Grew(st, r.0)
    decreases PATH_LIMIT + 1 - |path|, 0, 0
  {
    if Cut(st, path) then (st, "")
    else Follow(env, Apply(st, Fetch(path + [n])), path + [n], Read(env, n, env.lookup(n)))
  }

  function Follow(env: Env, st: State, path: seq<string>, r: Reading): (o: (State, string))
    requires path != [] && |path| <= PATH_LIMIT + 1
    ensures Grew(st, o.0)
    decreases PATH_LIMIT + 1 - |path|, 4, 0
  {
    ApplyAllLookups(st, r.events);
    var st' := ApplyAll(st, r.events);
    match r.terms
    case None => (st', "")
    case Some(terms) =>
      var o := Walk(env, st', terms, path);
      (o.st, o.all)
  }

  // --------------------------------------------------- the walk without cutoff

  /** The events of a walk and the all it ends with. No state is carried along. */
  datatype Trace = Trace(events: seq<Event>, all: string, via: string)

  function PathSet(path: seq<string>): set<string> {
    set n | n in path
  }

  /** Every name that has SPF records is one of `zone`. */
  ghost predicate FiniteZone(env: Env, zone: set<string>) {
    forall n: string :: SpfRecords(env.lookup(n).records) != [] ==> n in zone
  }

  lemma PathGrows(zone: set<string>, path: seq<string>, n: string)
    requires n in zone && n !in path
    ensures zone - PathSet(path + [n]) < zone - PathSet(path)
  {
    assert n in zone - PathSet(path);
    assert n in path + [n];
    assert forall m :: m in path ==> m in path + [n];
  }

  function TraceWalk(env: Env, zone: set<string>, terms: seq<Term>, path: seq<string>): Trace
    requires path != [] && FiniteZone(env, zone)
    decreases zone - PathSet(path), 3, 0
  {
    var own := RecordAll(terms);
    var t := TraceTerms(env, zone, terms, own, path, own, "");
    t.(events := Redundancies(env, terms, Last(path)) + t.events + MissingAll(env, terms, path))
  }

  function TraceTerms(env: Env, zone: set<string>, terms: seq<Term>, own: string, path: seq<string>, all: string,
      via: string): Trace
    requires path != [] && FiniteZone(env, zone)
    decreases zone - PathSet(path), 2, |terms|
  {
    if terms == [] then Trace([], all, via)
    else
      var t := terms[0];
      if !t.IsRedirect() then
        var rest := TraceTerms(env, zone, terms[1..], own, path, all, via);
        rest.(events := TraceMechanism(env, zone, t, path) + rest.events)
      else if own != "" then TraceTerms(env, zone, terms[1..], own, path, all, via)
      else
        var r := TraceRedirect(env, zone, t, path);
        var rest := TraceTerms(env, zone, terms[1..], own, path, r.all, r.via);
        rest.(events := r.events + rest.events)
  }

  function TraceRedirect(env: Env, zone: set<string>, t: Term, path: seq<string>): Trace
    requires path != [] && FiniteZone(env, zone)
    decreases zone - PathSet(path), 1, 0
  {
    var (es, a) := TraceDescend(env, zone, t.Target(), path);
    if a != "" then Trace([Query] + es, a, "redirect=" + t.Target()) else Trace([Query] + es, "", "")
  }

  function TraceMechanism(env: Env, zone: set<string>, t: Term, path: seq<string>): seq<Event>
    requires path != [] && FiniteZone(env, zone)
    decreases zone - PathSet(path), 1, 0
  {
    if t.IsInclude() then
      var (es, a) := TraceDescend(env, zone, t.Target(), path);
      [Query] + es + (if a == "+all" then NoteAll(env, "+", "include:" + t.Target()) else [])
    else if t.IsAll() then []
    else PlainTerm(env, t, Last(path))
  }

  function TraceDescend(env: Env, zone: set<string>, target: string, path: seq<string>): (seq<Event>, string)
    requires path != [] && FiniteZone(env, zone)
    decreases zone - PathSet(path), 0, 1
  {
    if '%' in target || target == "" then ([], "")
    else
      match env.dnsName(target)
      case NotAName(message) => ([Report(env.render(InvalidName(target, message)))], "")
      case Name(n) =>
        if n in path then ([Report(env.render(Loop(path, n)))], "")
        else
          var (es, a) := TraceEnter(env, zone, n, path);
          ([Include(n)] + es, a)
  }

  function TraceEnter(env: Env, zone: set<string>, n: string, path: seq<string>): (seq<Event>, string)
    requires path != [] && n !in path && FiniteZone(env, zone)
    decreases zone - PathSet(path), 0, 0
  {
    var r := Read(env, n, env.lookup(n));
    if r.terms.None? then ([Fetch(path + [n])] + r.events, "")
    else
      PathGrows(zone, path, n);
      var (es, a) := TraceFollow(env, zone, path + [n], r);
      ([Fetch(path + [n])] + es, a)
  }

  function TraceFollow(env: Env, zone: set<string>, path: seq<string>, r: Reading): (seq<Event>, string)
    requires path != [] && FiniteZone(env, zone)
    decreases zone - PathSet(path), 4, 0
  {
    match r.terms
    case None => (r.events, "")
    case Some(terms) =>
      var t := TraceWalk(env, zone, terms, path);
      (r.events + t.events, t.all)
  }

  // ------------------------------------------------------------ event algebra

  lemma {:induction false} ApplyAllLookups(st: State, es: seq<Event>)
    ensures Grew(st, ApplyAll(st, es))
    decreases |es|
  {
    if es != [] {
      ApplyAllLookups(Apply(st, es[0]), es[1..]);
    }
  }

  lemma {:induction false} ApplyAllConcat(st: State, xs: seq<Event>, ys: seq<Event>)
    ensures ApplyAll(st, xs + ys) == ApplyAll(ApplyAll(st, xs), ys)
    decreases |xs|
  {
    if xs == [] {
      assert xs + ys == ys;
    } else {
      assert (xs + ys)[1..] == xs[1..] + ys;
      ApplyAllConcat(Apply(st, xs[0]), xs[1..], ys);
    }
  }

  lemma ApplyAllOne(st: State, e: Event)
    ensures ApplyAll(st, [e]) == Apply(st, e)
  {
    assert [e][1..] == [];
  }

  lemma ReportsCons(env: Env, st: State, p: Problem, ps: seq<Problem>)
    ensures ApplyAll(st, Reports(env, [p] + ps)) == ApplyAll(Apply(st, Report(env.render(p))), Reports(env, ps))
  {
    assert ([p] + ps)[1..] == ps;
    ApplyAllConcat(st, [Report(env.render(p))], Reports(env, ps));
    ApplyAllOne(st, Report(env.render(p)));
  }

  lemma HasRedirectSnoc(terms: seq<Term>, t: Term)
    ensures HasRedirect(terms + [t]) <==> HasRedirect(terms) || t.IsRedirect()
  {
    assert (terms + [t])[|terms|] == t;
    assert forall i :: 0 <= i < |terms| ==> (terms + [t])[i] == terms[i];
  }

  lemma {:induction false} ReportsKeepCounts(st: State, es: seq<Event>)
    requires forall i :: 0 <= i < |es| ==> es[i].Report?
    ensures ApplyAll(st, es).lookups == st.lookups && ApplyAll(st, es).void == st.void
    decreases |es|
  {
    if es != [] {
      ReportsKeepCounts(Apply(st, es[0]), es[1..]);
    }
  }

  // ----------------------------------------------------------- the evaluation

  /** The evaluation of the apex SPF policy, as reported. */
  datatype SPFResult = SPFResult(
    records: nat, lookups: nat, voidLookups: nat, answerOctets: nat,
    all: string, includes: seq<string>, problems: seq<string>)

  function BareName(env: Env, s: string): string {
    match env.dnsName(s)
    case Name(n) => n
    case NotAName(_) => ""
  }

  const INITIAL := State(0, 0, [], [], [])

  /** What is reported before the apex record is walked. */
  function Opening(env: Env, txt: Lookup): seq<Event> {
    (if |SpfRecords(txt.records)| > 1 then [Report(env.render(MultipleRecords))] else []) +
      ApexSize(env, AnswerOctets(txt))
  }

  function LookupVerdict(env: Env, o: Outcome): seq<Event> {
    if o.st.lookups > LOOKUP_LIMIT then [Report(env.render(LookupLimit(o.st.lookups)))] else []
  }

  function VoidVerdict(env: Env, o: Outcome): seq<Event> {
    if o.st.void > VOID_LIMIT then [Report(env.render(VoidLimit(o.st.void)))] else []
  }

  /** What is reported once the walk is over. */
  function Closing(env: Env, o: Outcome): seq<Event> {
    AllVerdict(env, o) + (LookupVerdict(env, o) + VoidVerdict(env, o))
  }

  /** The opening and the closing are made of these steps. */
  lemma OpeningSteps(env: Env, st: State, txt: Lookup)
    ensures ApplyAll(st, Opening(env, txt)) ==
      ApplyAll(if |SpfRecords(txt.records)| > 1 then ApplyAll(st, [Report(env.render(MultipleRecords))]) else st,
        ApexSize(env, AnswerOctets(txt)))
  {
    var es := if |SpfRecords(txt.records)| > 1 then [Report(env.render(MultipleRecords))] else [];
    ApplyAllConcat(st, es, ApexSize(env, AnswerOctets(txt)));
  }

  function AllVerdict(env: Env, o: Outcome): seq<Event> {
    if o.all != "" then NoteAll(env, o.all[..1], o.via) else []
  }

  lemma ClosingSteps(env: Env, o: Outcome)
    ensures var st1 := ApplyAll(o.st, AllVerdict(env, o));
      && ApplyAll(o.st, Closing(env, o)) == ApplyAll(ApplyAll(st1, LookupVerdict(env, o)), VoidVerdict(env, o))
      && st1.lookups == o.st.lookups && ApplyAll(st1, LookupVerdict(env, o)).lookups == o.st.lookups
      && st1.void == o.st.void && ApplyAll(st1, LookupVerdict(env, o)).void == o.st.void
  {
    var st1 := ApplyAll(o.st, AllVerdict(env, o));
    ApplyAllConcat(o.st, AllVerdict(env, o), LookupVerdict(env, o) + VoidVerdict(env, o));
    ApplyAllConcat(st1, LookupVerdict(env, o), VoidVerdict(env, o));
    ReportsKeepCounts(o.st, AllVerdict(env, o));
    ReportsKeepCounts(st1, LookupVerdict(env, o));
  }

  function Finish(env: Env, o: Outcome): Outcome {
    o.(st := ApplyAll(o.st, Closing(env, o)))
  }

  /** The whole evaluation of a domain whose TXT answer holds an SPF record. */
  function Evaluation(env: Env, domain: string, txt: Lookup): Outcome
    requires SpfRecords(txt.records) != []
  {
    var terms := ParseTerms(SpfRecords(txt.records)[0]);
    Finish(env, Walk(env, ApplyAll(INITIAL, Opening(env, txt)), terms, [BareName(env, domain)]))
  }

  /** The same evaluation without any cutoff. */
  function UncutEvaluation(env: Env, zone: set<string>, domain: string, txt: Lookup): Outcome
    requires SpfRecords(txt.records) != [] && FiniteZone(env, zone)
  {
    var terms := ParseTerms(SpfRecords(txt.records)[0]);
    var st := ApplyAll(INITIAL, Opening(env, txt));
    var t := TraceWalk(env, zone, terms, [BareName(env, domain)]);
    Finish(env, Outcome(ApplyAll(st, t.events), t.all, t.via))
  }

  function Result(txt: Lookup, o: Outcome): SPFResult {
    SPFResult(|SpfRecords(txt.records)|, o.st.lookups, o.st.void, AnswerOctets(txt), o.all, o.st.includes,
      o.st.problems)
  }

  function EvaluateSPF(env: Env, domain: string, txt: Lookup): SPFResult {
    if SpfRecords(txt.records) == [] then SPFResult(0, 0, 0, 0, "", [], [])
    else Result(txt, Evaluation(env, domain, txt))
  }

  function EvaluateUncut(env: Env, zone: set<string>, domain: string, txt: Lookup): SPFResult
    requires FiniteZone(env, zone)
  {
    if SpfRecords(txt.records) == [] then SPFResult(0, 0, 0, 0, "", [], [])
    else Result(txt, UncutEvaluation(env, zone, domain, txt))
  }
}
