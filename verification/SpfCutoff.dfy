/** What the cutoff of the SPF walk may do beyond the lookup limit: it only leaves things out. */
module SpfCutoff {
  import opened Text
  import opened Records
  import opened SpfTerms
  import opened SpfProblems
  import opened SpfWalk
  import opened SpfInvariants
  import T = SpfTheorems
  import C = SpfClassification

  // ------------------------------------------------------------ subsequences

  /** `xs` is what is left of `ys` when some events are dropped. */
  predicate Sub(xs: seq<Event>, ys: seq<Event>)
    decreases |ys|
  {
    xs == [] || (ys != [] && ((xs[0] == ys[0] && Sub(xs[1..], ys[1..])) || Sub(xs, ys[1..])))
  }

  lemma {:induction false} SubSelf(xs: seq<Event>)
    ensures Sub(xs, xs)
    decreases |xs|
  {
    if xs != [] {
      SubSelf(xs[1..]);
    }
  }

  lemma {:induction false} SubBehind(xs: seq<Event>, gap: seq<Event>, ys: seq<Event>)
    requires Sub(xs, ys)
    ensures Sub(xs, gap + ys)
    decreases |gap|
  {
    if gap == [] {
      assert gap + ys == ys;
    } else {
      SubBehind(xs, gap[1..], ys);
      assert (gap + ys)[1..] == gap[1..] + ys;
    }
  }

  lemma {:induction false} SubConcat(xs: seq<Event>, ys: seq<Event>, xs': seq<Event>, ys': seq<Event>)
    requires Sub(xs, ys) && Sub(xs', ys')
    ensures Sub(xs + xs', ys + ys')
    decreases |ys|
  {
    if xs == [] {
      assert xs + xs' == xs';
      SubBehind(xs', ys, ys');
    } else {
      assert (ys + ys')[1..] == ys[1..] + ys' && (xs + xs')[1..] == xs[1..] + xs';
      if xs[0] == ys[0] && Sub(xs[1..], ys[1..]) {
        SubConcat(xs[1..], ys[1..], xs', ys');
      } else {
        SubConcat(xs, ys[1..], xs', ys');
      }
    }
  }

  lemma SubFront(front: seq<Event>, xs: seq<Event>, ys: seq<Event>)
    requires Sub(xs, ys)
    ensures Sub(front + xs, front + ys)
  {
    SubSelf(front);
    SubConcat(front, front, xs, ys);
  }

  /** Dropping events lowers counts and adds nothing. */
  lemma {:induction false} SubCounts(xs: seq<Event>, ys: seq<Event>)
    requires Sub(xs, ys)
    ensures forall e :: T.Count(xs, e) <= T.Count(ys, e)
    ensures forall e :: e in xs ==> e in ys
    decreases |ys|
  {
    if xs != [] {
      assert xs == [xs[0]] + xs[1..] && ys == [ys[0]] + ys[1..];
      if xs[0] == ys[0] && Sub(xs[1..], ys[1..]) {
        SubCounts(xs[1..], ys[1..]);
      } else {
        SubCounts(xs, ys[1..]);
      }
    }
  }

  // --------------------------------------------------- the cut walk within the uncut

  /** An all and the way to it are the uncut walk's, or there is none. */
  predicate AllWithin(all: string, via: string, all': string, via': string) {
    (all == all' && via == via') || (all == "" && via == "")
  }

  /** From `st` the cut run comes to `o` by events `es`, the uncut one to `t`. */
  predicate Within(st: State, o: Outcome, es: seq<Event>, t: Trace) {
    o.st == ApplyAll(st, es) && Sub(es, t.events) && AllWithin(o.all, o.via, t.all, t.via)
  }

  predicate StepWithin(st: State, r: (State, string), es: seq<Event>, t: (seq<Event>, string)) {
    r.0 == ApplyAll(st, es) && Sub(es, t.0) && (r.1 == t.1 || r.1 == "")
  }

  lemma {:induction false} WalkWithin(env: Env, zone: set<string>, st: State, terms: seq<Term>, path: seq<string>)
    returns (es: seq<Event>)
    requires FiniteZone(env, zone) && path != [] && |path| <= PATH_LIMIT + 1
    ensures Within(st, Walk(env, st, terms, path), es, TraceWalk(env, zone, terms, path))
    decreases PATH_LIMIT + 1 - |path|, 3, 0
  {
    var own := RecordAll(terms);
    var before, after := Redundancies(env, terms, Last(path)), MissingAll(env, terms, path);
    var st1 := ApplyAll(st, before);
    var inner := TermsWithin(env, zone, Outcome(st1, own, ""), terms, own, path, own, "");
    var t := TraceTerms(env, zone, terms, own, path, own, "");
    es := before + inner + after;
    ApplyAllConcat(st, before + inner, after);
    ApplyAllConcat(st, before, inner);
    SubFront(before, inner, t.events);
    SubSelf(after);
    SubConcat(before + inner, before + t.events, after, after);
  }

  lemma {:induction false} TermsWithin(
    env: Env, zone: set<string>, o: Outcome, terms: seq<Term>, own: string, path: seq<string>, all: string, via: string)
    returns (es: seq<Event>)
    requires FiniteZone(env, zone) && path != [] && |path| <= PATH_LIMIT + 1
    requires AllWithin(o.all, o.via, all, via)
    ensures Within(o.st, WalkTerms(env, o.st, terms, own, path, o.all, o.via), es,
      TraceTerms(env, zone, terms, own, path, all, via))
    decreases PATH_LIMIT + 1 - |path|, 2, |terms|
  {
    if terms == [] {
      es := [];
    } else {
      var t, rest := terms[0], terms[1..];
      if !t.IsRedirect() {
        var first := MechanismWithin(env, zone, o.st, t, path);
        var st := WalkMechanism(env, o.st, t, path);
        var later := TermsWithin(env, zone, Outcome(st, o.all, o.via), rest, own, path, all, via);
        es := first + later;
        ApplyAllConcat(o.st, first, later);
        var behind := TraceTerms(env, zone, rest, own, path, all, via);
        SubConcat(first, TraceMechanism(env, zone, t, path), later, behind.events);
      } else if own != "" {
        es := TermsWithin(env, zone, o, rest, own, path, all, via);
      } else {
        var first := RedirectWithin(env, zone, o.st, t, path);
        var o', r := WalkRedirect(env, o.st, t, path), TraceRedirect(env, zone, t, path);
        var later := TermsWithin(env, zone, o', rest, own, path, r.all, r.via);
        es := first + later;
        ApplyAllConcat(o.st, first, later);
        SubConcat(first, r.events, later, TraceTerms(env, zone, rest, own, path, r.all, r.via).events);
      }
    }
  }

  lemma {:induction false} RedirectWithin(env: Env, zone: set<string>, st: State, t: Term, path: seq<string>)
    returns (es: seq<Event>)
    requires FiniteZone(env, zone) && path != [] && |path| <= PATH_LIMIT + 1
    ensures Within(st, WalkRedirect(env, st, t, path), es, TraceRedirect(env, zone, t, path))
    decreases PATH_LIMIT + 1 - |path|, 1, 0
  {
    es := QueryWithin(env, zone, st, t.Target(), path);
  }

  lemma {:induction false} MechanismWithin(env: Env, zone: set<string>, st: State, t: Term, path: seq<string>)
    returns (es: seq<Event>)
    requires FiniteZone(env, zone) && path != [] && |path| <= PATH_LIMIT + 1
    ensures WalkMechanism(env, st, t, path) == ApplyAll(st, es) && Sub(es, TraceMechanism(env, zone, t, path))
    decreases PATH_LIMIT + 1 - |path|, 1, 0
  {
    if t.IsInclude() {
      var inner := QueryWithin(env, zone, st, t.Target(), path);
      var (st1, a) := Descend(env, Apply(st, Query), t.Target(), path);
      var (ts, b) := TraceDescend(env, zone, t.Target(), path);
      var note := NoteAll(env, "+", "include:" + t.Target());
      var own, theirs := if a == "+all" then note else [], if b == "+all" then note else [];
      es := inner + own;
      ApplyAllConcat(st, inner, own);
      SubSelf(note);
      SubConcat(inner, [Query] + ts, own, theirs);
    } else {
      es := if t.IsAll() then [] else PlainTerm(env, t, Last(path));
      SubSelf(es);
    }
  }

  lemma {:induction false} QueryWithin(env: Env, zone: set<string>, st: State, target: string, path: seq<string>)
    returns (es: seq<Event>)
    requires FiniteZone(env, zone) && path != [] && |path| <= PATH_LIMIT + 1
    ensures var t := TraceDescend(env, zone, target, path);
      StepWithin(st, Descend(env, Apply(st, Query), target, path), es, ([Query] + t.0, t.1))
    decreases PATH_LIMIT + 1 - |path|, 0, 2
  {
    var inner := DescendWithin(env, zone, Apply(st, Query), target, path);
    es := [Query] + inner;
    ApplyAllConcat(st, [Query], inner);
    ApplyAllOne(st, Query);
    SubFront([Query], inner, TraceDescend(env, zone, target, path).0);
  }

  lemma {:induction false} DescendWithin(env: Env, zone: set<string>, st: State, target: string, path: seq<string>)
    returns (es: seq<Event>)
    requires FiniteZone(env, zone) && path != [] && |path| <= PATH_LIMIT + 1
    ensures StepWithin(st, Descend(env, st, target, path), es, TraceDescend(env, zone, target, path))
    decreases PATH_LIMIT + 1 - |path|, 0, 1
  {
    if '%' in target || target == "" {
      es := [];
    } else {
      match env.dnsName(target)
      case NotAName(message) =>
        es := [Report(env.render(InvalidName(target, message)))];
        ApplyAllOne(st, es[0]);
        SubSelf(es);
      case Name(n) =>
        if n in path {
          es := [Report(env.render(Loop(path, n)))];
          ApplyAllOne(st, es[0]);
          SubSelf(es);
        } else {
          var inner := EnterWithin(env, zone, Apply(st, Include(n)), n, path);
          es := [Include(n)] + inner;
          ApplyAllConcat(st, [Include(n)], inner);
          ApplyAllOne(st, Include(n));
          SubFront([Include(n)], inner, TraceEnter(env, zone, n, path).0);
        }
    }
  }

  lemma {:induction false} EnterWithin(env: Env, zone: set<string>, st: State, n: string, path: seq<string>)
    returns (es: seq<Event>)
    requires FiniteZone(env, zone) && path != [] && |path| <= PATH_LIMIT + 1 && n !in path
    ensures StepWithin(st, Enter(env, st, n, path), es, TraceEnter(env, zone, n, path))
    decreases PATH_LIMIT + 1 - |path|, 0, 0
  {
    if Cut(st, path) {
      es := [];
    } else {
      var path', r := path + [n], Read(env, n, env.lookup(n));
      var inner := FollowWithin(env, zone, Apply(st, Fetch(path')), path', r);
      es := [Fetch(path')] + inner;
      ApplyAllConcat(st, [Fetch(path')], inner);
      ApplyAllOne(st, Fetch(path'));
      SubFront([Fetch(path')], inner, TraceFollow(env, zone, path', r).0);
    }
  }

  lemma {:induction false} FollowWithin(env: Env, zone: set<string>, st: State, path: seq<string>, r: Reading)
    returns (es: seq<Event>)
    requires FiniteZone(env, zone) && path != [] && |path| <= PATH_LIMIT + 1
    ensures StepWithin(st, Follow(env, st, path, r), es, TraceFollow(env, zone, path, r))
    decreases PATH_LIMIT + 1 - |path|, 4, 0
  {
    match r.terms
    case None =>
      es := r.events;
      SubSelf(es);
    case Some(terms) =>
      var inner := WalkWithin(env, zone, ApplyAll(st, r.events), terms, path);
      es := r.events + inner;
      ApplyAllConcat(st, r.events, inner);
      SubFront(r.events, inner, TraceWalk(env, zone, terms, path).events);
  }

  // ------------------------------------------------------------ the evaluation

  /** The state when a walk is over and its all is noted. */
  function Noted(env: Env, o: Outcome): State {
    ApplyAll(o.st, AllVerdict(env, o))
  }

  /** What is left out of a run is left out of its lists and its counts. */
  lemma WithinMeans(env: Env, st: State, o: Outcome, es: seq<Event>, t: Trace)
    requires Within(st, o, es, t)
    ensures var u := T.After(st, t);
      && o.st.lookups <= u.st.lookups && o.st.void <= u.st.void
      && (forall n :: n in o.st.includes ==> n in u.st.includes)
      && (forall p :: p in Noted(env, o).problems ==> p in Noted(env, u).problems)
  {
    var u := T.After(st, t);
    SubCounts(es, t.events);
    T.StateIsTally(st, es);
    T.StateIsTally(st, t.events);
    T.StateIsTally(o.st, AllVerdict(env, o));
    T.StateIsTally(u.st, AllVerdict(env, u));
  }

  lemma FinishKeepsIncludes(env: Env, o: Outcome)
    ensures Finish(env, o).st.includes == o.st.includes
  {
    ReportsKeepIncludes(o.st, Closing(env, o));
  }

  lemma {:induction false} ReportsKeepIncludes(st: State, es: seq<Event>)
    requires forall i :: 0 <= i < |es| ==> es[i].Report?
    ensures ApplyAll(st, es).includes == st.includes
    decreases |es|
  {
    if es != [] {
      ReportsKeepIncludes(Apply(st, es[0]), es[1..]);
    }
  }

  /** The walks of one evaluation with and without the cutoff. */
  lemma EvaluationWithin(env: Env, zone: set<string>, domain: string, txt: Lookup)
    returns (o: Outcome, u: Outcome)
    requires SpfRecords(txt.records) != [] && FiniteZone(env, zone)
    ensures EvaluateSPF(env, domain, txt) == Result(txt, Finish(env, o))
    ensures EvaluateUncut(env, zone, domain, txt) == Result(txt, Finish(env, u))
    ensures o.st.lookups <= u.st.lookups && o.st.void <= u.st.void && (o.all == u.all || o.all == "")
    ensures forall n :: n in o.st.includes ==> n in u.st.includes
    ensures forall p :: p in Noted(env, o).problems ==> p in Noted(env, u).problems
  {
    var terms, path := ParseTerms(SpfRecords(txt.records)[0]), [BareName(env, domain)];
    var st := ApplyAll(INITIAL, Opening(env, txt));
    var t := TraceWalk(env, zone, terms, path);
    o, u := Walk(env, st, terms, path), T.After(st, t);
    var es := WalkWithin(env, zone, st, terms, path);
    WithinMeans(env, st, o, es, t);
  }

  /** The problem text reports a count over its limit. */
  predicate CountVerdict(env: Env, r: SPFResult, text: string) {
    || (r.lookups > LOOKUP_LIMIT && text == env.render(LookupLimit(r.lookups)))
    || (r.voidLookups > VOID_LIMIT && text == env.render(VoidLimit(r.voidLookups)))
  }

  /** Everything `cut` holds, `uncut` holds, but for the counts in its verdicts. */
  ghost predicate OnlyOmits(env: Env, cut: SPFResult, uncut: SPFResult) {
    && cut.records == uncut.records && cut.answerOctets == uncut.answerOctets
    && cut.lookups <= uncut.lookups && cut.voidLookups <= uncut.voidLookups
    && (cut.all == uncut.all || cut.all == "")
    && (forall n :: n in cut.includes ==> n in uncut.includes)
    && (forall p :: p in cut.problems ==> p in uncut.problems || CountVerdict(env, cut, p))
  }

  lemma FinishedOnlyOmits(env: Env, txt: Lookup, o: Outcome, u: Outcome)
    requires o.st.lookups <= u.st.lookups && o.st.void <= u.st.void && (o.all == u.all || o.all == "")
    requires forall n :: n in o.st.includes ==> n in u.st.includes
    requires forall p :: p in Noted(env, o).problems ==> p in Noted(env, u).problems
    ensures OnlyOmits(env, Result(txt, Finish(env, o)), Result(txt, Finish(env, u)))
  {
    FinishAdds(env, o);
    FinishAdds(env, u);
    FinishKeepsIncludes(env, o);
    FinishKeepsIncludes(env, u);
    var cut, uncut := Result(txt, Finish(env, o)), Result(txt, Finish(env, u));
    forall p | p in cut.problems ensures p in uncut.problems || CountVerdict(env, cut, p) {
      assert p in Noted(env, o).problems || Verdict(env, o, p);
    }
  }

  /** Over every finite zone, however many lookups it takes, the cutoff only leaves things out:
      counts are at most the uncut ones, includes and problems are among the uncut ones, and
      the all is the uncut one or missing. So a void verdict given is also given without it. */
  lemma CutoffOnlyOmits(env: Env, zone: set<string>, domain: string, txt: Lookup)
    requires FiniteZone(env, zone)
    ensures OnlyOmits(env, EvaluateSPF(env, domain, txt), EvaluateUncut(env, zone, domain, txt))
  {
    if SpfRecords(txt.records) != [] {
      var o, u := EvaluationWithin(env, zone, domain, txt);
      FinishedOnlyOmits(env, txt, o, u);
    }
  }

  /** So every finding filed of an evaluation is filed of the one without cutoff too. */
  lemma CutoffAddsNoFinding(env: Env, zone: set<string>, domain: string, txt: Lookup, code: string)
    requires FiniteZone(env, zone) && Worded(env)
    ensures var cut, uncut := EvaluateSPF(env, domain, txt), EvaluateUncut(env, zone, domain, txt);
      Filed(cut.problems, code) ==> Filed(uncut.problems, code)
  {
    var cut, uncut := EvaluateSPF(env, domain, txt), EvaluateUncut(env, zone, domain, txt);
    CutoffOnlyOmits(env, zone, domain, txt);
    if Filed(cut.problems, code) {
      var text :| text in cut.problems && FiledAs(text, code);
      if text !in uncut.problems {
        var o, u := EvaluationWithin(env, zone, domain, txt);
        CountVerdictKept(env, o, u, txt, text, code);
      }
    }
  }

  lemma FiledAlike(p: Problem, r: Problem, code: string)
    requires Emittable(p) && Emittable(r) && FiledUnder(p) == FiledUnder(r)
    ensures FiledAs(Render(p), code) <==> FiledAs(Render(r), code)
  {
    C.ClassifyRender(p);
    C.ClassifyRender(r);
  }

  /** A verdict on a count is filed under one code, whatever the count. */
  lemma CountVerdictKept(env: Env, o: Outcome, u: Outcome, txt: Lookup, text: string, code: string)
    requires Worded(env) && o.st.lookups <= u.st.lookups && o.st.void <= u.st.void
    requires CountVerdict(env, Result(txt, Finish(env, o)), text) && FiledAs(text, code)
    ensures Filed(Result(txt, Finish(env, u)).problems, code)
  {
    FinishAdds(env, o);
    FinishAdds(env, u);
    var lookups, voids := LookupLimit(o.st.lookups), VoidLimit(o.st.void);
    var lookups', voids' := LookupLimit(u.st.lookups), VoidLimit(u.st.void);
    FiledAlike(lookups, lookups', code);
    FiledAlike(voids, voids', code);
    if o.st.lookups > LOOKUP_LIMIT && text == env.render(lookups) {
      assert Verdict(env, u, Render(lookups')) && FiledAs(Render(lookups'), code);
    } else {
      assert Verdict(env, u, Render(voids')) && FiledAs(Render(voids'), code);
    }
  }
}
