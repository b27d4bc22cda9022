/** What holds of every SPF evaluation. */
module SpfTheorems {
  import opened Text
  import opened Records
  import opened SpfTerms
  import X = SpfPrefixes
  import opened SpfProblems
  import opened SpfClassification
  import opened SpfWalk

  // -------------------------------------- the cutoff does not change the verdict

  /** How many lookups a run may have counted when it is first cut off. */
  const SETTLED := 20

  /** Two runs agree in everything, or both are beyond any limit. */
  predicate Same(a: Outcome, b: Outcome) {
    a == b || (a.st.lookups > SETTLED && b.st.lookups > SETTLED)
  }

  predicate SameStep(a: (State, string), b: (State, string)) {
    a == b || (a.0.lookups > SETTLED && b.0.lookups > SETTLED)
  }

  /** The state after the uncut walk's events. */
  function After(st: State, t: Trace): Outcome {
    Outcome(ApplyAll(st, t.events), t.all, t.via)
  }

  lemma {:induction false} WalkAgrees(env: Env, zone: set<string>, st: State, terms: seq<Term>, path: seq<string>)
    requires FiniteZone(env, zone) && path != [] && |path| <= PATH_LIMIT + 1
    requires st.lookups >= |path| - 1
    ensures Same(Walk(env, st, terms, path), After(st, TraceWalk(env, zone, terms, path)))
    decreases PATH_LIMIT + 1 - |path|, 3, 0
  {
    var own := RecordAll(terms);
    var before, after := Redundancies(env, terms, Last(path)), MissingAll(env, terms, path);
    var st1 := ApplyAll(st, before);
    ApplyAllLookups(st, before);
    TermsAgree(env, zone, Outcome(st1, own, ""), terms, own, path);
    var o := WalkTerms(env, st1, terms, own, path, own, "");
    var t := TraceTerms(env, zone, terms, own, path, own, "");
    var u := ApplyAll(st1, t.events);
    ApplyAllLookups(o.st, after);
    ApplyAllLookups(u, after);
    ApplyAllConcat(st, before + t.events, after);
    ApplyAllConcat(st, before, t.events);
  }

  lemma {:induction false} TermsAgree(env: Env, zone: set<string>, o: Outcome, terms: seq<Term>, own: string,
      path: seq<string>)
    requires FiniteZone(env, zone) && path != [] && |path| <= PATH_LIMIT + 1
    requires o.st.lookups >= |path| - 1
    ensures Same(WalkTerms(env, o.st, terms, own, path, o.all, o.via),
                 After(o.st, TraceTerms(env, zone, terms, own, path, o.all, o.via)))
    decreases PATH_LIMIT + 1 - |path|, 2, |terms|
  {
    if terms != [] {
      var t := terms[0];
      if !t.IsRedirect() {
        MechanismAgrees(env, zone, o.st, t, path);
        var es := TraceMechanism(env, zone, t, path);
        var c := WalkMechanism(env, o.st, t, path);
        var rest := TraceTerms(env, zone, terms[1..], own, path, o.all, o.via);
        ApplyAllConcat(o.st, es, rest.events);
        ApplyAllLookups(ApplyAll(o.st, es), rest.events);
        if c == ApplyAll(o.st, es) {
          TermsAgree(env, zone, Outcome(c, o.all, o.via), terms[1..], own, path);
        }
      } else if own != "" {
        TermsAgree(env, zone, o, terms[1..], own, path);
      } else {
        RedirectAgrees(env, zone, o.st, t, path);
        var r := TraceRedirect(env, zone, t, path);
        var c := WalkRedirect(env, o.st, t, path);
        var rest := TraceTerms(env, zone, terms[1..], own, path, r.all, r.via);
        ApplyAllConcat(o.st, r.events, rest.events);
        ApplyAllLookups(ApplyAll(o.st, r.events), rest.events);
        if c == After(o.st, r) {
          TermsAgree(env, zone, c, terms[1..], own, path);
        }
      }
    }
  }

  lemma {:induction false} RedirectAgrees(env: Env, zone: set<string>, st: State, t: Term, path: seq<string>)
    requires FiniteZone(env, zone) && path != [] && |path| <= PATH_LIMIT + 1
    requires t.IsRedirect() && st.lookups >= |path| - 1
    ensures Same(WalkRedirect(env, st, t, path), After(st, TraceRedirect(env, zone, t, path)))
    decreases PATH_LIMIT + 1 - |path|, 1, 0
  {
    DescendAgrees(env, zone, Apply(st, Query), t.Target(), path);
    var (es, a) := TraceDescend(env, zone, t.Target(), path);
    ApplyAllConcat(st, [Query], es);
    ApplyAllOne(st, Query);
  }

  lemma {:induction false} MechanismAgrees(env: Env, zone: set<string>, st: State, t: Term, path: seq<string>)
    requires FiniteZone(env, zone) && path != [] && |path| <= PATH_LIMIT + 1
    requires st.lookups >= |path| - 1
    ensures SameStep((WalkMechanism(env, st, t, path), ""), (ApplyAll(st, TraceMechanism(env, zone, t, path)), ""))
    decreases PATH_LIMIT + 1 - |path|, 1, 0
  {
    if t.IsInclude() {
      DescendAgrees(env, zone, Apply(st, Query), t.Target(), path);
      var (st1, a1) := Descend(env, Apply(st, Query), t.Target(), path);
      var (es, a) := TraceDescend(env, zone, t.Target(), path);
      var note := NoteAll(env, "+", "include:" + t.Target());
      IncludeEvents(st, es, note);
      ApplyAllLookups(st1, note);
      assert TraceMechanism(env, zone, t, path) == [Query] + es + (if a == "+all" then note else []);
    }
  }

  lemma IncludeEvents(st: State, es: seq<Event>, note: seq<Event>)
    ensures ApplyAll(st, [Query] + es + []) == ApplyAll(Apply(st, Query), es)
    ensures ApplyAll(st, [Query] + es + note) == ApplyAll(ApplyAll(Apply(st, Query), es), note)
    ensures ApplyAll(st, [Query] + es + note).lookups >= ApplyAll(Apply(st, Query), es).lookups
  {
    ApplyAllConcat(st, [Query] + es, note);
    ApplyAllConcat(st, [Query], es);
    ApplyAllOne(st, Query);
    ApplyAllLookups(ApplyAll(Apply(st, Query), es), note);
    assert [Query] + es + [] == [Query] + es;
  }

  /** The heart of it: by the time a target is descended into, at least as many lookups are
      counted as there are domains on the path, so a cut happens beyond any limit. */
  lemma {:induction false} DescendAgrees(env: Env, zone: set<string>, st: State, target: string, path: seq<string>)
    requires FiniteZone(env, zone) && path != [] && |path| <= PATH_LIMIT + 1
    requires st.lookups >= |path|
    ensures var (es, a) := TraceDescend(env, zone, target, path);
      SameStep(Descend(env, st, target, path), (ApplyAll(st, es), a))
    decreases PATH_LIMIT + 1 - |path|, 0, 1
  {
    if '%' in target || target == "" {
    } else {
      match env.dnsName(target)
      case NotAName(message) =>
        ApplyAllOne(st, Report(env.render(InvalidName(target, message))));
      case Name(n) =>
        if n in path {
          ApplyAllOne(st, Report(env.render(Loop(path, n))));
        } else {
          EnterAgrees(env, zone, Apply(st, Include(n)), n, path);
          ApplyAllConcat(st, [Include(n)], TraceEnter(env, zone, n, path).0);
          ApplyAllOne(st, Include(n));
        }
    }
  }

  lemma {:induction false} EnterAgrees(env: Env, zone: set<string>, st: State, n: string, path: seq<string>)
    requires FiniteZone(env, zone) && path != [] && |path| <= PATH_LIMIT + 1
    requires st.lookups >= |path| && n !in path
    ensures var (es, a) := TraceEnter(env, zone, n, path);
      SameStep(Enter(env, st, n, path), (ApplyAll(st, es), a))
    decreases PATH_LIMIT + 1 - |path|, 0, 0
  {
    var path', r := path + [n], Read(env, n, env.lookup(n));
    var (es, a) := TraceFollow(env, zone, path', r);
    ApplyAllConcat(st, [Fetch(path')], es);
    ApplyAllOne(st, Fetch(path'));
    ApplyAllLookups(Apply(st, Fetch(path')), es);
    if !Cut(st, path) {
      FollowAgrees(env, zone, Apply(st, Fetch(path')), path', r);
    }
  }

  lemma {:induction false} FollowAgrees(env: Env, zone: set<string>, st: State, path: seq<string>, r: Reading)
    requires FiniteZone(env, zone) && path != [] && |path| <= PATH_LIMIT + 1
    requires st.lookups >= |path| - 1
    ensures var (es, a) := TraceFollow(env, zone, path, r);
      SameStep(Follow(env, st, path, r), (ApplyAll(st, es), a))
    decreases PATH_LIMIT + 1 - |path|, 4, 0
  {
    if r.terms.Some? {
      var t := TraceWalk(env, zone, r.terms.value, path);
      ApplyAllLookups(st, r.events);
      ApplyAllConcat(st, r.events, t.events);
      WalkAgrees(env, zone, ApplyAll(st, r.events), r.terms.value, path);
    }
  }

  // --------------------------------------------------------- the whole result

  lemma FinishKeepsCounts(env: Env, o: Outcome)
    ensures Finish(env, o).st.lookups == o.st.lookups && Finish(env, o).st.void == o.st.void
  {
    ReportsKeepCounts(o.st, Closing(env, o));
  }

  /** Over any finite zone the cutoff never changes the verdict "over 10 lookups", and an
      evaluation that either side counts at most 20 lookups for is the same in everything:
      lookups, void lookups, includes, problems, all and the way there. */
  lemma CutoffInvisible(env: Env, zone: set<string>, domain: string, txt: Lookup)
    requires FiniteZone(env, zone)
    ensures var cut, uncut := EvaluateSPF(env, domain, txt), EvaluateUncut(env, zone, domain, txt);
      && (cut.lookups > 10 <==> uncut.lookups > 10)
      && (cut.lookups <= 20 || uncut.lookups <= 20 ==> cut == uncut)
  {
    if SpfRecords(txt.records) != [] {
      var terms, path := ParseTerms(SpfRecords(txt.records)[0]), [BareName(env, domain)];
      var st := ApplyAll(INITIAL, Opening(env, txt));
      WalkAgrees(env, zone, st, terms, path);
      FinishKeepsCounts(env, Walk(env, st, terms, path));
      FinishKeepsCounts(env, After(st, TraceWalk(env, zone, terms, path)));
    }
  }

  // ------------------------------------------------- what the events amount to

  function Count(es: seq<Event>, e: Event): nat {
    if es == [] then 0 else (if es[0] == e then 1 else 0) + Count(es[1..], e)
  }

  /** The counters of a run are the numbers of its events, and its lists hold what was
      included and reported, each once. */
  lemma {:induction false} StateIsTally(st: State, es: seq<Event>)
    ensures ApplyAll(st, es).lookups == st.lookups + Count(es, Query)
    ensures ApplyAll(st, es).void == st.void + Count(es, NoRecords)
    ensures forall n: string :: n in ApplyAll(st, es).includes <==> n in st.includes || Include(n) in es
    ensures forall p: string :: p in ApplyAll(st, es).problems <==> p in st.problems || Report(p) in es
    decreases |es|
  {
    if es != [] {
      StateIsTally(Apply(st, es[0]), es[1..]);
      assert forall e :: e in es <==> e == es[0] || e in es[1..];
    }
  }

  // ------------------------------------ a record's own all ignores its redirects

  function WithoutRedirects(terms: seq<Term>): seq<Term> {
    if terms == [] then []
    else if terms[0].IsRedirect() then WithoutRedirects(terms[1..])
    else [terms[0]] + WithoutRedirects(terms[1..])
  }

  lemma {:induction false} DeletionKeepsAll(terms: seq<Term>)
    ensures RecordAll(WithoutRedirects(terms)) == RecordAll(terms)
  {
    if terms != [] {
      DeletionKeepsAll(terms[1..]);
    }
  }

  lemma {:induction false} DeletionKeepsPrefixes(ip: X.IPParser, terms: seq<Term>)
    ensures X.SpfPrefixesOf(ip, WithoutRedirects(terms)) == X.SpfPrefixesOf(ip, terms)
  {
    if terms != [] {
      DeletionKeepsPrefixes(ip, terms[1..]);
    }
  }

  lemma {:induction false} DeletionKeepsTerms(env: Env, st: State, terms: seq<Term>, own: string, path: seq<string>,
      all: string, via: string)
    requires path != [] && |path| <= PATH_LIMIT + 1 && own != ""
    ensures WalkTerms(env, st, WithoutRedirects(terms), own, path, all, via) ==
      WalkTerms(env, st, terms, own, path, all, via)
    decreases |terms|
  {
    if terms != [] {
      if terms[0].IsRedirect() {
        DeletionKeepsTerms(env, st, terms[1..], own, path, all, via);
      } else {
        DeletionKeepsTerms(env, WalkMechanism(env, st, terms[0], path), terms[1..], own, path, all, via);
      }
    }
  }

  /** Section 6.1 of RFC 7208: deleting every redirect of a record that has an all mechanism
      changes nothing in its evaluation. */
  lemma RedirectsIgnored(env: Env, st: State, terms: seq<Term>, path: seq<string>)
    requires path != [] && |path| <= PATH_LIMIT + 1
    requires RecordAll(terms) != ""
    ensures Walk(env, st, WithoutRedirects(terms), path) == Walk(env, st, terms, path)
    ensures Walk(env, st, terms, path).all == RecordAll(terms) && Walk(env, st, terms, path).via == ""
  {
    var own := RecordAll(terms);
    DeletionKeepsAll(terms);
    DeletionKeepsPrefixes(env.ip, terms);
    var st1 := ApplyAll(st, Redundancies(env, terms, Last(path)));
    DeletionKeepsTerms(env, st1, terms, own, path, own, "");
    OwnAllStays(env, st1, terms, own, path, own, "");
  }

  lemma {:induction false} OwnAllStays(env: Env, st: State, terms: seq<Term>, own: string, path: seq<string>,
      all: string, via: string)
    requires path != [] && |path| <= PATH_LIMIT + 1 && own != ""
    ensures var o := WalkTerms(env, st, terms, own, path, all, via); o.all == all && o.via == via
    decreases |terms|
  {
    if terms != [] {
      if terms[0].IsRedirect() {
        OwnAllStays(env, st, terms[1..], own, path, all, via);
      } else {
        OwnAllStays(env, WalkMechanism(env, st, terms[0], path), terms[1..], own, path, all, via);
      }
    }
  }

  // ------------------------------------------------------ where the walk is cut

  /** The domain a target is fetched for, cutoff or not: a name that is not on the path. */
  function Fetchable(env: Env, target: string, path: seq<string>): Option<string> {
    if target == "" || '%' in target then None
    else
      match env.dnsName(target)
      case Name(n) => if n in path then None else Some(n)
      case NotAName(_) => None
  }

  /** The cutoff lies exactly where mail.go puts it: a target is fetched if and only if at most 30
      lookups are counted and at most 20 domains are on the path; it is listed all the same. */
  lemma FetchedExactly(env: Env, st: State, target: string, path: seq<string>)
    requires path != [] && |path| <= PATH_LIMIT + 1
    ensures var st' := Descend(env, st, target, path).0;
      match Fetchable(env, target, path)
      case None => st'.fetched == st.fetched
      case Some(n) =>
        if st.lookups <= 30 && |path| <= 20 then st.fetched + [path + [n]] <= st'.fetched
        else st' == st.(includes := AddOnce(st.includes, n))
  {
  }
}
