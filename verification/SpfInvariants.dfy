/** What every SPF evaluation keeps, over arbitrary DNS: bounded fetching, simple paths,
    duplicate-free lists, and problems that the classifier of report.go knows. */
module SpfInvariants {
  import opened Text
  import opened Records
  import opened SpfTerms
  import X = SpfPrefixes
  import opened SpfProblems
  import opened SpfClassification
  import opened SpfWalk
  import T = SpfTheorems

  predicate NoDup(xs: seq<string>) {
    forall i, j :: 0 <= i < j < |xs| ==> xs[i] != xs[j]
  }

  /** A path that a record was fetched along: from the apex, no domain twice, at most 21 long. */
  predicate SimplePath(path: seq<string>, apex: string) {
    path != [] && path[0] == apex && NoDup(path) && |path| <= 21
  }

  /** A problem the evaluator can come to report, an invalid name with what the normaliser
      says of it. */
  predicate Emitted(env: Env, p: Problem) {
    Emittable(p) && (p.InvalidName? ==> env.dnsName(p.target) == NotAName(p.message))
  }

  /** A problem that is told apart from every other by its text. */
  predicate Clear(p: Problem) {
    Emittable(p) && (p.InvalidName? ==> !Misleading(p.message))
  }

  /** The verdicts on the counts, given when the walk is over. */
  predicate IsVerdict(p: Problem) {
    p.LookupLimit? || p.VoidLimit?
  }

  /** A text by which the walk means something, and not a verdict. */
  ghost predicate Known(env: Env, text: string) {
    exists p :: env.render(p) == text && Emitted(env, p) && !IsVerdict(p)
  }

  lemma KnownRender(env: Env, p: Problem)
    requires Emitted(env, p) && !IsVerdict(p)
    ensures Known(env, env.render(p))
  {
  }

  /** What `Inv` says of texts only holds of a normaliser that returns names without white
      space. */
  ghost predicate Tame(env: Env) {
    forall s: string :: env.dnsName(s).Name? ==> OneWord(env.dnsName(s).ascii)
  }

  /** The normaliser complains without another problem's phrase. */
  ghost predicate Honest(env: Env) {
    forall s: string :: env.dnsName(s).NotAName? ==> !Misleading(env.dnsName(s).message)
  }

  /** Problems are worded as mail.go words them. */
  ghost predicate Worded(env: Env) {
    forall p :: env.render(p) == Render(p)
  }

  ghost predicate Inv(env: Env, st: State, apex: string, tame: bool) {
    && |st.fetched| <= st.lookups
    && |st.fetched| <= MAX_FETCHES
    && (forall i :: 0 <= i < |st.fetched| ==> SimplePath(st.fetched[i], apex))
    && NoDup(st.includes)
    && NoDup(st.problems)
    && (tame ==> forall i :: 0 <= i < |st.problems| ==> Known(env, st.problems[i]))
  }

  ghost predicate OkEvent(env: Env, e: Event, tame: bool) {
    !e.Fetch? && (tame && e.Report? ==> Known(env, e.problem))
  }

  ghost predicate OkEvents(env: Env, es: seq<Event>, tame: bool) {
    forall i :: 0 <= i < |es| ==> OkEvent(env, es[i], tame)
  }

  lemma AddOnceNoDup(xs: seq<string>, x: string)
    requires NoDup(xs)
    ensures NoDup(AddOnce(xs, x))
  {
  }

  lemma ApplyInv(env: Env, st: State, e: Event, apex: string, tame: bool)
    requires Inv(env, st, apex, tame) && OkEvent(env, e, tame)
    ensures Inv(env, Apply(st, e), apex, tame) && Apply(st, e).fetched == st.fetched
  {
    match e {
      case Include(name) => AddOnceNoDup(st.includes, name);
      case Report(problem) => AddOnceNoDup(st.problems, problem);
      case _ =>
    }
  }

  lemma {:induction false} ApplyAllInv(env: Env, st: State, es: seq<Event>, apex: string, tame: bool)
    requires Inv(env, st, apex, tame) && OkEvents(env, es, tame)
    ensures Inv(env, ApplyAll(st, es), apex, tame) && ApplyAll(st, es).fetched == st.fetched
    decreases |es|
  {
    if es != [] {
      ApplyInv(env, st, es[0], apex, tame);
      ApplyAllInv(env, Apply(st, es[0]), es[1..], apex, tame);
    }
  }

  // ----------------------------------------------------- the events of a walk

  ghost predicate Spaceless(terms: seq<Term>) {
    forall i :: 0 <= i < |terms| ==> TermSpaceFree(terms[i])
  }

  lemma SpaceFreeOneWord(s: string)
    requires SpaceFree(s)
    ensures OneWord(s)
  {
  }

  lemma TargetOneWord(t: Term)
    requires TermSpaceFree(t)
    ensures OneWord(t.Target()) && OneWord("include:" + t.Target()) && OneWord("redirect=" + t.Target())
  {
    SpaceFreeOneWord(t.arg);
  }

  /** A mechanism's text as the classifier expects it. */
  predicate GoodText(m: X.Mechanism) {
    HasPrefix(m.text, "ip") && OneWord(m.text)
  }

  lemma MechanismText(ip: X.IPParser, t: Term)
    requires TermSpaceFree(t) && X.MechanismOf(ip, t).Some?
    ensures GoodText(X.MechanismOf(ip, t).value)
  {
    SpaceFreeOneWord(t.arg);
    assert t.name[..2] == "ip";
    assert X.MechanismOf(ip, t).value.text == t.name + ":" + TrimPrefix(t.arg, ":");
  }

  lemma {:induction false} MechanismTexts(ip: X.IPParser, terms: seq<Term>)
    requires Spaceless(terms)
    ensures forall i :: 0 <= i < |X.SpfPrefixesOf(ip, terms)| ==> GoodText(X.SpfPrefixesOf(ip, terms)[i])
  {
    if terms != [] {
      MechanismTexts(ip, terms[1..]);
      if X.MechanismOf(ip, terms[0]).Some? {
        MechanismText(ip, terms[0]);
      }
    }
  }

  lemma {:induction false} RedundantEmittable(ms: X.Mechanisms, domain: string, i: nat)
    requires i <= |ms| && OneWord(domain)
    requires forall k :: 0 <= k < |ms| ==> GoodText(ms[k])
    ensures forall k :: 0 <= k < |X.RedundantProblems(ms, domain, i)| ==>
      var p := X.RedundantProblems(ms, domain, i)[k]; Emittable(p) && p.Redundant?
    decreases |ms| - i
  {
    if i < |ms| {
      RedundantEmittable(ms, domain, i + 1);
      assert GoodText(ms[i]);
    }
  }

  lemma {:induction false} ReportsOk(env: Env, ps: seq<Problem>, tame: bool)
    requires tame ==> forall k :: 0 <= k < |ps| ==> Emittable(ps[k]) && ps[k].Redundant?
    ensures OkEvents(env, Reports(env, ps), tame)
  {
    if ps != [] {
      ReportsOk(env, ps[1..], tame);
      if tame {
        KnownRender(env, ps[0]);
      }
    }
  }

  lemma RedundanciesOk(env: Env, terms: seq<Term>, domain: string, tame: bool)
    requires tame ==> Spaceless(terms) && OneWord(domain)
    ensures OkEvents(env, Redundancies(env, terms, domain), tame)
  {
    var ms := X.SpfPrefixesOf(env.ip, terms);
    if tame {
      MechanismTexts(env.ip, terms);
      RedundantEmittable(ms, domain, 0);
    }
    ReportsOk(env, X.RedundantProblems(ms, domain, 0), tame);
  }

  lemma ReportOk(env: Env, p: Problem, tame: bool)
    requires tame ==> Emitted(env, p) && !IsVerdict(p)
    ensures OkEvents(env, [Report(env.render(p))], tame)
  {
    if tame {
      KnownRender(env, p);
    }
  }

  lemma ConcatOk(env: Env, xs: seq<Event>, ys: seq<Event>, tame: bool)
    requires OkEvents(env, xs, tame) && OkEvents(env, ys, tame)
    ensures OkEvents(env, xs + ys, tame)
  {
  }

  lemma MissingAllOk(env: Env, terms: seq<Term>, path: seq<string>, tame: bool)
    ensures OkEvents(env, MissingAll(env, terms, path), tame)
  {
    ReportOk(env, NoAll, tame);
  }

  lemma PtrOk(env: Env, tame: bool)
    ensures OkEvents(env, [Query, Report(env.render(Ptr))], tame)
  {
    ReportOk(env, Ptr, tame);
    ConcatOk(env, [Query], [Report(env.render(Ptr))], tame);
  }

  lemma PlainTermOk(env: Env, t: Term, domain: string, tame: bool)
    requires tame ==> TermSpaceFree(t) && OneWord(domain)
    ensures OkEvents(env, PlainTerm(env, t, domain), tame)
  {
    if t.name == "ptr" {
      PtrOk(env, tame);
    } else {
      if tame {
        SpaceFreeOneWord(t.name);
      }
      ReportOk(env, UnknownMechanism(t.name, domain), tame);
    }
  }

  lemma NoteAllOk(env: Env, qualifier: string, via: string, tame: bool)
    requires tame ==> OneWord(via)
    ensures OkEvents(env, NoteAll(env, qualifier, via), tame)
  {
    if qualifier == "+" {
      ReportOk(env, PassAll(via), tame);
    } else {
      ReportOk(env, NeutralAll(via), tame);
    }
  }

  lemma MissingOk(env: Env, n: string, tame: bool)
    requires tame ==> OneWord(n)
    ensures OkEvents(env, [NoRecords, Report(env.render(Missing(n)))], tame)
      && OkEvents(env, [Report(env.render(Missing(n)))], tame)
  {
    ReportOk(env, Missing(n), tame);
    ConcatOk(env, [NoRecords], [Report(env.render(Missing(n)))], tame);
  }

  lemma IncludeSizeOk(env: Env, n: string, l: Lookup, tame: bool)
    requires tame ==> OneWord(n)
    ensures OkEvents(env, IncludeSize(env, n, l), tame)
  {
    ReportOk(env, IncludeOver(n, AnswerOctets(l)), tame);
  }

  lemma ReadOk(env: Env, n: string, l: Lookup, tame: bool)
    requires tame ==> OneWord(n)
    ensures OkEvents(env, Read(env, n, l).events, tame)
  {
    if !l.Answered() {
      ReportOk(env, Unchecked(n), tame);
    } else if !l.HasRecords() || SpfRecords(l.records) == [] {
      MissingOk(env, n, tame);
    } else {
      IncludeSizeOk(env, n, l, tame);
    }
  }

  lemma ReadSpaceless(env: Env, n: string, l: Lookup)
    requires Read(env, n, l).terms.Some?
    ensures Spaceless(Read(env, n, l).terms.value)
  {
    ParsedTermsSpaceFree(SpfRecords(l.records)[0]);
  }

  // ------------------------------------------------------------ along the walk

  ghost predicate Path(path: seq<string>, apex: string, tame: bool) {
    SimplePath(path, apex) && (tame ==> forall i :: 0 <= i < |path| ==> OneWord(path[i]))
  }

  lemma {:induction false} WalkInv(env: Env, st: State, terms: seq<Term>, path: seq<string>, apex: string, tame: bool)
    requires Inv(env, st, apex, tame) && Path(path, apex, tame) && (tame ==> Tame(env) && Spaceless(terms))
    ensures Inv(env, Walk(env, st, terms, path).st, apex, tame)
    ensures tame ==> OneWord(Walk(env, st, terms, path).via)
    decreases PATH_LIMIT + 1 - |path|, 3, 0
  {
    var own := RecordAll(terms);
    RedundanciesOk(env, terms, Last(path), tame);
    ApplyAllInv(env, st, Redundancies(env, terms, Last(path)), apex, tame);
    var st1 := ApplyAll(st, Redundancies(env, terms, Last(path)));
    TermsInv(env, st1, terms, own, path, own, "", apex, tame);
    MissingAllOk(env, terms, path, tame);
    ApplyAllInv(env, WalkTerms(env, st1, terms, own, path, own, "").st, MissingAll(env, terms, path), apex, tame);
  }

  lemma {:induction false} TermsInv(env: Env, st: State, terms: seq<Term>, own: string, path: seq<string>,
      all: string, via: string, apex: string, tame: bool)
    requires Inv(env, st, apex, tame) && Path(path, apex, tame)
        && (tame ==> Tame(env) && Spaceless(terms) && OneWord(via))
    ensures Inv(env, WalkTerms(env, st, terms, own, path, all, via).st, apex, tame)
    ensures tame ==> OneWord(WalkTerms(env, st, terms, own, path, all, via).via)
    decreases PATH_LIMIT + 1 - |path|, 2, |terms|
  {
    if terms != [] {
      var t := terms[0];
      if !t.IsRedirect() {
        MechanismInv(env, st, t, path, apex, tame);
        TermsInv(env, WalkMechanism(env, st, t, path), terms[1..], own, path, all, via, apex, tame);
      } else if own != "" {
        TermsInv(env, st, terms[1..], own, path, all, via, apex, tame);
      } else {
        QueryInv(env, st, t.Target(), path, apex, tame);
        var o := WalkRedirect(env, st, t, path);
        if tame {
          TargetOneWord(t);
        }
        TermsInv(env, o.st, terms[1..], own, path, o.all, o.via, apex, tame);
      }
    }
  }

  lemma {:induction false} MechanismInv(env: Env, st: State, t: Term, path: seq<string>, apex: string, tame: bool)
    requires Inv(env, st, apex, tame) && Path(path, apex, tame) && (tame ==> Tame(env) && TermSpaceFree(t))
    ensures Inv(env, WalkMechanism(env, st, t, path), apex, tame)
    decreases PATH_LIMIT + 1 - |path|, 1, 0
  {
    if t.IsInclude() {
      QueryInv(env, st, t.Target(), path, apex, tame);
      var st1 := Descend(env, Apply(st, Query), t.Target(), path).0;
      if tame {
        TargetOneWord(t);
      }
      NoteAllOk(env, "+", "include:" + t.Target(), tame);
      ApplyAllInv(env, st1, NoteAll(env, "+", "include:" + t.Target()), apex, tame);
    } else if !t.IsAll() {
      PlainTermOk(env, t, Last(path), tame);
      ApplyAllInv(env, st, PlainTerm(env, t, Last(path)), apex, tame);
    }
  }

  /** A lookup is counted before each descent, which leaves room for one fetch. */
  lemma {:induction false} QueryInv(env: Env, st: State, target: string, path: seq<string>, apex: string, tame: bool)
    requires Inv(env, st, apex, tame) && Path(path, apex, tame)
    requires tame ==> Tame(env) && OneWord(target)
    ensures Inv(env, Descend(env, Apply(st, Query), target, path).0, apex, tame)
    decreases PATH_LIMIT + 1 - |path|, 0, 2
  {
    DescendInv(env, Apply(st, Query), target, path, apex, tame);
  }

  lemma {:induction false} DescendInv(env: Env, st: State, target: string, path: seq<string>, apex: string, tame: bool)
    requires Inv(env, st, apex, tame) && |st.fetched| < st.lookups && Path(path, apex, tame)
    requires tame ==> Tame(env) && OneWord(target)
    ensures Inv(env, Descend(env, st, target, path).0, apex, tame)
    decreases PATH_LIMIT + 1 - |path|, 0, 1
  {
    if '%' in target || target == "" {
    } else {
      match env.dnsName(target)
      case NotAName(message) =>
        if tame {
          KnownRender(env, InvalidName(target, message));
        }
        ApplyInv(env, st, Report(env.render(InvalidName(target, message))), apex, tame);
      case Name(n) =>
        if n in path {
          if tame {
            KnownRender(env, Loop(path, n));
          }
          ApplyInv(env, st, Report(env.render(Loop(path, n))), apex, tame);
        } else {
          ApplyInv(env, st, Include(n), apex, tame);
          EnterInv(env, Apply(st, Include(n)), n, path, apex, tame);
        }
    }
  }

  lemma {:induction false} EnterInv(env: Env, st: State, n: string, path: seq<string>, apex: string, tame: bool)
    requires Inv(env, st, apex, tame) && |st.fetched| < st.lookups && Path(path, apex, tame)
    requires n !in path && (tame ==> Tame(env) && OneWord(n))
    ensures Inv(env, Enter(env, st, n, path).0, apex, tame)
    decreases PATH_LIMIT + 1 - |path|, 0, 0
  {
    if !Cut(st, path) {
      var path' := path + [n];
      assert Path(path', apex, tame);
      var st1 := Apply(st, Fetch(path'));
      var r := Read(env, n, env.lookup(n));
      ReadOk(env, n, env.lookup(n), tame);
      ApplyAllInv(env, st1, r.events, apex, tame);
      if r.terms.Some? {
        ReadSpaceless(env, n, env.lookup(n));
        WalkInv(env, ApplyAll(st1, r.events), r.terms.value, path', apex, tame);
      }
    }
  }

  // ------------------------------------------------------ the whole evaluation

  lemma ApexSizeOk(env: Env, octets: nat, tame: bool)
    ensures OkEvents(env, ApexSize(env, octets), tame)
  {
    if octets > ANSWER_LIMIT {
      ReportOk(env, ApexOver(octets), tame);
    } else {
      ReportOk(env, ApexNear(octets), tame);
    }
  }

  lemma OpeningOk(env: Env, txt: Lookup, tame: bool)
    ensures OkEvents(env, Opening(env, txt), tame)
  {
    var es := if |SpfRecords(txt.records)| > 1 then [Report(env.render(MultipleRecords))] else [];
    ReportOk(env, MultipleRecords, tame);
    ApexSizeOk(env, AnswerOctets(txt), tame);
    ConcatOk(env, es, ApexSize(env, AnswerOctets(txt)), tame);
  }

  /** The walk of an evaluation, before what is reported at its end. */
  function WalkOf(env: Env, domain: string, txt: Lookup): Outcome
    requires SpfRecords(txt.records) != []
  {
    Walk(env, ApplyAll(INITIAL, Opening(env, txt)), ParseTerms(SpfRecords(txt.records)[0]), [BareName(env, domain)])
  }

  /** What is known of a finished walk. */
  ghost predicate WalkedWell(env: Env, o: Outcome, apex: string, tame: bool) {
    Inv(env, o.st, apex, tame) && (tame ==> OneWord(o.via))
  }

  lemma OpenedInv(env: Env, txt: Lookup, apex: string, tame: bool)
    ensures Inv(env, ApplyAll(INITIAL, Opening(env, txt)), apex, tame)
  {
    OpeningOk(env, txt, tame);
    ApplyAllInv(env, INITIAL, Opening(env, txt), apex, tame);
  }

  lemma EvaluationWalked(env: Env, domain: string, txt: Lookup, tame: bool)
    requires SpfRecords(txt.records) != [] && (tame ==> Tame(env))
    ensures WalkedWell(env, WalkOf(env, domain, txt), BareName(env, domain), tame)
  {
    var apex, terms := BareName(env, domain), ParseTerms(SpfRecords(txt.records)[0]);
    var st := ApplyAll(INITIAL, Opening(env, txt));
    OpenedInv(env, txt, apex, tame);
    ParsedTermsSpaceFree(SpfRecords(txt.records)[0]);
    assert Path([apex], apex, tame);
    WalkInv(env, st, terms, [apex], apex, tame);
  }

  // -------------------------------------------------- what is reported at the end

  lemma AllVerdictInv(env: Env, o: Outcome, apex: string, tame: bool)
    requires WalkedWell(env, o, apex, tame)
    ensures Inv(env, ApplyAll(o.st, AllVerdict(env, o)), apex, tame)
  {
    if o.all != "" {
      NoteAllOk(env, o.all[..1], o.via, tame);
    }
    ApplyAllInv(env, o.st, AllVerdict(env, o), apex, tame);
  }

  lemma FinishInv(env: Env, o: Outcome, apex: string)
    requires WalkedWell(env, o, apex, false)
    ensures Inv(env, Finish(env, o).st, apex, false)
  {
    var st := ApplyAll(o.st, AllVerdict(env, o));
    AllVerdictInv(env, o, apex, false);
    ClosingSteps(env, o);
    ApplyAllInv(env, st, LookupVerdict(env, o), apex, false);
    ApplyAllInv(env, ApplyAll(st, LookupVerdict(env, o)), VoidVerdict(env, o), apex, false);
  }

  lemma MaybeReported(st: State, given: bool, text: string)
    ensures var st' := ApplyAll(st, if given then [Report(text)] else []);
      && st'.lookups == st.lookups && st'.void == st.void
      && forall t: string :: t in st'.problems <==> t in st.problems || (given && t == text)
  {
    if given {
      ApplyAllOne(st, Report(text));
    }
  }

  /** `text` is one of the verdicts on the counts of `o`. */
  predicate Verdict(env: Env, o: Outcome, text: string) {
    || (o.st.lookups > LOOKUP_LIMIT && text == env.render(LookupLimit(o.st.lookups)))
    || (o.st.void > VOID_LIMIT && text == env.render(VoidLimit(o.st.void)))
  }

  /** The verdicts are all that is added behind the walk, each when its count is over its limit. */
  lemma FinishAdds(env: Env, o: Outcome)
    ensures var st, st' := ApplyAll(o.st, AllVerdict(env, o)), Finish(env, o).st;
      && st'.lookups == o.st.lookups && st'.void == o.st.void
      && forall text: string :: text in st'.problems <==> text in st.problems || Verdict(env, o, text)
  {
    ClosingSteps(env, o);
    var st := ApplyAll(o.st, AllVerdict(env, o));
    MaybeReported(st, o.st.lookups > LOOKUP_LIMIT, env.render(LookupLimit(o.st.lookups)));
    MaybeReported(ApplyAll(st, LookupVerdict(env, o)), o.st.void > VOID_LIMIT, env.render(VoidLimit(o.st.void)));
  }

  lemma KnownOrigin(env: Env, st: State, apex: string, text: string) returns (p: Problem)
    requires Inv(env, st, apex, true) && text in st.problems
    ensures Emitted(env, p) && env.render(p) == text && !IsVerdict(p)
  {
    assert Known(env, text);
    p :| env.render(p) == text && Emitted(env, p) && !IsVerdict(p);
  }

  /** Where a problem of an evaluation comes from. */
  lemma ProblemOrigin(env: Env, o: Outcome, apex: string, text: string) returns (p: Problem)
    requires WalkedWell(env, o, apex, true) && text in Finish(env, o).st.problems
    ensures Emitted(env, p) && env.render(p) == text
    ensures p.LookupLimit? ==> o.st.lookups > LOOKUP_LIMIT
    ensures p.VoidLimit? ==> o.st.void > VOID_LIMIT
  {
    FinishAdds(env, o);
    var st := ApplyAll(o.st, AllVerdict(env, o));
    if text in st.problems {
      AllVerdictInv(env, o, apex, true);
      p := KnownOrigin(env, st, apex, text);
    } else if o.st.lookups > LOOKUP_LIMIT && text == env.render(LookupLimit(o.st.lookups)) {
      p := LookupLimit(o.st.lookups);
    } else {
      p := VoidLimit(o.st.void);
    }
  }

  // ------------------------------------------------------- how it is filed

  /** Some problem is filed under `code`. */
  predicate Filed(problems: seq<string>, code: string) {
    exists text :: text in problems && FiledAs(text, code)
  }

  predicate FiledAs(text: string, code: string) {
    Classify(text).0 == code
  }

  const LOOKUP_CODE := "spf_lookup_limit"
  const VOID_CODE := "spf_void_limit"

  lemma VerdictCodes(k: nat)
    requires k < |CLASSES|
    ensures CLASSES[k].code == LOOKUP_CODE <==> k == 1
    ensures CLASSES[k].code == VOID_CODE <==> k == 2
  {
    var c := CLASSES[k].code;
    assert |c| == 16 && c[4] == 'l' <==> k == 1;
    assert |c| == 14 <==> k == 2;
  }

  /** A problem filed under a verdict's code is that verdict, or an invalid name with a message
      that reads like it. */
  lemma FiledVerdict(p: Problem, lookupCode: string, voidCode: string)
    requires Emittable(p) && lookupCode == LOOKUP_CODE && voidCode == VOID_CODE
    ensures FiledAs(Render(p), lookupCode) <==> FiledUnder(p) == LOOKUP_CLASS
    ensures FiledAs(Render(p), voidCode) <==> FiledUnder(p) == VOID_CLASS
  {
    ClassifyRender(p);
    VerdictCodes(FiledUnder(p));
  }

  const LOOKUP_CLASS := 1
  const VOID_CLASS := 2

  /** Among the problems is an invalid name that the normaliser complains of in words that file
      it under class `k`. */
  ghost predicate Misled(env: Env, problems: seq<string>, k: nat) {
    exists s: string :: env.dnsName(s).NotAName? && MisledBy(env, problems, k, s, env.dnsName(s).message)
  }

  predicate MisledBy(env: Env, problems: seq<string>, k: nat, target: string, message: string) {
    OneWord(target) && InvalidClass(message) == k && env.render(InvalidName(target, message)) in problems
  }

  lemma FiledIsOver(env: Env, o: Outcome, apex: string, lookupCode: string, voidCode: string)
    requires Worded(env) && WalkedWell(env, o, apex, true) && lookupCode == LOOKUP_CODE && voidCode == VOID_CODE
    ensures var ps := Finish(env, o).st.problems;
      && (Filed(ps, lookupCode) ==> o.st.lookups > LOOKUP_LIMIT || Misled(env, ps, LOOKUP_CLASS))
      && (Filed(ps, voidCode) ==> o.st.void > VOID_LIMIT || Misled(env, ps, VOID_CLASS))
  {
    var ps := Finish(env, o).st.problems;
    forall text | text in ps
      ensures FiledAs(text, lookupCode) ==> o.st.lookups > LOOKUP_LIMIT || Misled(env, ps, LOOKUP_CLASS)
      ensures FiledAs(text, voidCode) ==> o.st.void > VOID_LIMIT || Misled(env, ps, VOID_CLASS)
    {
      var p := ProblemOrigin(env, o, apex, text);
      FiledVerdict(p, lookupCode, voidCode);
      if p.InvalidName? {
        assert MisledBy(env, ps, FiledUnder(p), p.target, p.message);
      }
    }
  }

  lemma OverIsFiled(env: Env, o: Outcome, lookupCode: string, voidCode: string)
    requires Worded(env) && lookupCode == LOOKUP_CODE && voidCode == VOID_CODE
    ensures o.st.lookups > LOOKUP_LIMIT ==> Filed(Finish(env, o).st.problems, lookupCode)
    ensures o.st.void > VOID_LIMIT ==> Filed(Finish(env, o).st.problems, voidCode)
  {
    FinishAdds(env, o);
    var lookups, voids := LookupLimit(o.st.lookups), VoidLimit(o.st.void);
    FiledVerdict(lookups, lookupCode, voidCode);
    FiledVerdict(voids, lookupCode, voidCode);
    assert o.st.lookups > LOOKUP_LIMIT ==> Verdict(env, o, env.render(lookups));
    assert o.st.void > VOID_LIMIT ==> Verdict(env, o, env.render(voids));
  }

  lemma MisledIsFiled(env: Env, ps: seq<string>, lookupCode: string, voidCode: string)
    requires Worded(env) && lookupCode == LOOKUP_CODE && voidCode == VOID_CODE
    ensures Misled(env, ps, LOOKUP_CLASS) ==> Filed(ps, lookupCode)
    ensures Misled(env, ps, VOID_CLASS) ==> Filed(ps, voidCode)
  {
    forall s: string | env.dnsName(s).NotAName? && OneWord(s)
      ensures MisledBy(env, ps, LOOKUP_CLASS, s, env.dnsName(s).message) ==> Filed(ps, lookupCode)
      ensures MisledBy(env, ps, VOID_CLASS, s, env.dnsName(s).message) ==> Filed(ps, voidCode)
    {
      var p := InvalidName(s, env.dnsName(s).message);
      FiledVerdict(p, lookupCode, voidCode);
    }
  }

  // ------------------------------------------------------------ main results

  /** An evaluation is its walk and what is reported at its end. */
  lemma EvaluationIsFinished(env: Env, domain: string, txt: Lookup)
    requires SpfRecords(txt.records) != []
    ensures var o := WalkOf(env, domain, txt);
      && Evaluation(env, domain, txt) == Finish(env, o)
      && EvaluateSPF(env, domain, txt) == Result(txt, Finish(env, o))
  {
  }

  /** The evaluator's state when it is done; without an SPF record it did nothing. */
  function FinalState(env: Env, domain: string, txt: Lookup): State {
    if SpfRecords(txt.records) == [] then INITIAL else Evaluation(env, domain, txt).st
  }

  /** Whatever the DNS answers, however many names it holds: at most 30 fetches behind the
      apex, each along a path of at most 21 domains from the apex without repetition; and
      no include or problem is listed twice. */
  lemma FetchesBounded(env: Env, domain: string, txt: Lookup)
    ensures var st := FinalState(env, domain, txt);
      && |st.fetched| <= MAX_FETCHES == 30 && |st.fetched| <= st.lookups
      && (forall i :: 0 <= i < |st.fetched| ==> SimplePath(st.fetched[i], BareName(env, domain)))
      && NoDup(st.includes) && NoDup(st.problems)
  {
    if SpfRecords(txt.records) != [] {
      EvaluationIsFinished(env, domain, txt);
      EvaluationWalked(env, domain, txt, false);
      FinishInv(env, WalkOf(env, domain, txt), BareName(env, domain));
    }
  }

  /** Every problem of an evaluation is one that can be emitted, and report.go files it under
      the code and severity meant for it, but for an invalid name with another's phrase. */
  lemma EveryProblemClassified(env: Env, domain: string, txt: Lookup)
    requires Tame(env) && Worded(env)
    ensures forall text :: text in EvaluateSPF(env, domain, txt).problems ==> ClassedAsMeant(env, text)
  {
    forall text | text in EvaluateSPF(env, domain, txt).problems ensures ClassedAsMeant(env, text) {
      EvaluationIsFinished(env, domain, txt);
      EvaluationWalked(env, domain, txt, true);
      var p := ProblemOrigin(env, WalkOf(env, domain, txt), BareName(env, domain), text);
      ClassifyRender(p);
      assert IsFiledUnder(text, FiledUnder(p));
    }
  }

  predicate IsFiledUnder(text: string, k: nat)
    requires k < |CLASSES|
  {
    Classify(text) == (CLASSES[k].code, CLASSES[k].sev)
  }

  /** `text` is that of an emitted problem and filed under its class, which is the class meant
      for it exactly when its text is clear. */
  ghost predicate ClassedAsMeant(env: Env, text: string) {
    exists p :: Emitted(env, p) && Render(p) == text
      && IsFiledUnder(text, FiledUnder(p)) && (FiledUnder(p) == Meant(p) <==> Clear(p))
  }

  /** Length and two characters tell the codes apart. */
  function Mark(code: string): (nat, char, char)
    requires |code| >= 9
  {
    (|code|, code[8], code[|code| - 4])
  }

  const MARKS := [
    (12, 'i', 'i'), (16, 'u', 'i'), (14, '_', 'i'), (10, 'l', '_'),
    (18, 'd', 'a'), (21, 'o', 'n'), (12, '_', '_'), (15, 'r', '_'),
    (22, 'o', 'i'), (22, 'n', 'i'), (30, 'u', 'i'), (19, 'u', 'a'),
    (19, 'u', 's'), (21, 'u', 'c'), (16, 'u', 'l'), (16, 'n', 't')
  ]

  lemma CodeMark(k: nat)
    requires k < |CLASSES|
    ensures |CLASSES[k].code| >= 9 && Mark(CLASSES[k].code) == MARKS[k]
  {
  }

  lemma MarksDiffer(j: nat, k: nat)
    requires j < 16 && k < 16 && MARKS[j] == MARKS[k]
    ensures j == k
  {
  }

  lemma CodesDiffer(j: nat, k: nat)
    requires j < |CLASSES| && k < |CLASSES| && CLASSES[j].code == CLASSES[k].code
    ensures j == k
  {
    CodeMark(j);
    CodeMark(k);
    MarksDiffer(j, k);
  }

  /** No text is that of two clear problems of different kinds, so the kind a problem is filed
      under is the kind it was emitted as. */
  lemma OneMeaning(p: Problem, r: Problem)
    requires Clear(p) && Clear(r) && Render(p) == Render(r)
    ensures Meant(p) == Meant(r)
  {
    ClassifyRender(p);
    ClassifyRender(r);
    CodesDiffer(Meant(p), Meant(r));
  }

  lemma HonestNotMisled(env: Env, problems: seq<string>, k: nat)
    requires Honest(env) && k != 11
    ensures !Misled(env, problems, k)
  {
  }

  /** From DNS to report: a finding on too many lookups, or too many void ones, is filed
      exactly when the count is over its limit, or the normaliser misleads. */
  lemma VerdictsFiled(env: Env, domain: string, txt: Lookup)
    requires Tame(env) && Worded(env)
    ensures var r := EvaluateSPF(env, domain, txt);
      && (Filed(r.problems, LOOKUP_CODE) <==> r.lookups > 10 || Misled(env, r.problems, LOOKUP_CLASS))
      && (Filed(r.problems, VOID_CODE) <==> r.voidLookups > 2 || Misled(env, r.problems, VOID_CLASS))
      && (Honest(env) ==> !Misled(env, r.problems, LOOKUP_CLASS) && !Misled(env, r.problems, VOID_CLASS))
  {
    var r := EvaluateSPF(env, domain, txt);
    if SpfRecords(txt.records) != [] {
      var o := WalkOf(env, domain, txt);
      EvaluationIsFinished(env, domain, txt);
      EvaluationWalked(env, domain, txt, true);
      FinishAdds(env, o);
      FiledIsOver(env, o, BareName(env, domain), LOOKUP_CODE, VOID_CODE);
      OverIsFiled(env, o, LOOKUP_CODE, VOID_CODE);
      MisledIsFiled(env, r.problems, LOOKUP_CODE, VOID_CODE);
    }
    if Honest(env) {
      HonestNotMisled(env, r.problems, LOOKUP_CLASS);
      HonestNotMisled(env, r.problems, VOID_CLASS);
    }
  }

  /** So the finding on too many lookups never depends on the cutoff. */
  lemma CutoffNeverFiled(env: Env, zone: set<string>, domain: string, txt: Lookup)
    requires Tame(env) && Worded(env) && FiniteZone(env, zone)
    ensures var cut, uncut := EvaluateSPF(env, domain, txt), EvaluateUncut(env, zone, domain, txt);
      && (Filed(cut.problems, LOOKUP_CODE) <==> uncut.lookups > 10 || Misled(env, cut.problems, LOOKUP_CLASS))
      && (Honest(env) ==> (Filed(cut.problems, LOOKUP_CODE) <==> uncut.lookups > 10))
  {
    VerdictsFiled(env, domain, txt);
    T.CutoffInvisible(env, zone, domain, txt);
  }
}
