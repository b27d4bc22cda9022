/** The stateful evaluator of mail.go. Each method does to the fields what the functions of
    SpfWalk say, so that what is proved about those holds of every run. */
module SpfEvaluator {
  import opened Text
  import opened Records
  import opened SpfTerms
  import X = SpfPrefixes
  import opened SpfProblems
  import W = SpfWalk

  class Evaluator {
    const env: W.Env
    var lookups: nat
    var void: nat
    var includes: seq<string>
    var problems: seq<string>
    ghost var fetched: seq<seq<string>>  // the paths records were fetched along

    ghost function Now(): W.State
      reads this
    {
      W.State(lookups, void, includes, problems, fetched)
    }

    constructor (env: W.Env)
      ensures this.env == env && Now() == W.INITIAL
    {
      this.env := env;
      lookups, void, includes, problems, fetched := 0, 0, [], [], [];
    }

    method Problem(p: string)
      modifies this
      ensures Now() == W.Apply(old(Now()), W.Report(p))
    {
      if p !in problems {
        problems := problems + [p];
      }
    }

    method NoteInclude(target: string)
      modifies this
      ensures Now() == W.Apply(old(Now()), W.Include(target))
    {
      if target !in includes {
        includes := includes + [target];
      }
    }

    method Term(t: Term, domain: string)
      modifies this
      ensures Now() == W.ApplyAll(old(Now()), W.PlainTerm(env, t, domain))
    {
      ghost var st := Now();
      if t.name == "a" || t.name == "mx" || t.name == "exists" {
        lookups := lookups + 1;
        W.ApplyAllOne(st, W.Query);
      } else if t.name == "ptr" {
        lookups := lookups + 1;
        Problem(env.render(Ptr));
        Two(st, W.Query, W.Report(env.render(Ptr)));
      } else if t.name == "ip4" || t.name == "ip6" || t.modifier {
      } else {
        Problem(env.render(UnknownMechanism(t.name, domain)));
        W.ApplyAllOne(st, W.Report(env.render(UnknownMechanism(t.name, domain))));
      }
    }

    method NoteAll(qualifier: string, via: string)
      modifies this
      ensures Now() == W.ApplyAll(old(Now()), W.NoteAll(env, qualifier, via))
    {
      ghost var st := Now();
      if qualifier == "+" {
        Problem(env.render(PassAll(via)));
        W.ApplyAllOne(st, W.Report(env.render(PassAll(via))));
      } else if qualifier == "?" {
        Problem(env.render(NeutralAll(via)));
        W.ApplyAllOne(st, W.Report(env.render(NeutralAll(via))));
      }
    }

    method ApexSize(octets: nat)
      modifies this
      ensures Now() == W.ApplyAll(old(Now()), W.ApexSize(env, octets))
    {
      ghost var st := Now();
      if octets > ANSWER_LIMIT {
        Problem(env.render(ApexOver(octets)));
        W.ApplyAllOne(st, W.Report(env.render(ApexOver(octets))));
      } else if octets > ANSWER_WARN {
        Problem(env.render(ApexNear(octets)));
        W.ApplyAllOne(st, W.Report(env.render(ApexNear(octets))));
      }
    }

    method IncludeSize(target: string, l: Lookup)
      modifies this
      ensures Now() == W.ApplyAll(old(Now()), W.IncludeSize(env, target, l))
    {
      ghost var st := Now();
      var octets := UdpAnswerOctets(l);
      if octets > ANSWER_LIMIT {
        Problem(env.render(IncludeOver(target, octets)));
        W.ApplyAllOne(st, W.Report(env.render(IncludeOver(target, octets))));
      }
    }

    method ReportAll(ps: seq<Problem>)
      modifies this
      ensures Now() == W.ApplyAll(old(Now()), W.Reports(env, ps))
    {
      for i := 0 to |ps|
        invariant W.ApplyAll(Now(), W.Reports(env, ps[i..])) == W.ApplyAll(old(Now()), W.Reports(env, ps))
      {
        assert ps[i..][1..] == ps[i + 1..];
        W.ReportsCons(env, Now(), ps[i], ps[i + 1..]);
        assert ps[i..] == [ps[i]] + ps[i + 1..];
        Problem(env.render(ps[i]));
      }
    }

    method Walk(record: string, path: seq<string>) returns (all: string, via: string)
      requires NonBlank(record) && path != [] && |path| <= W.PATH_LIMIT + 1
      modifies this
      ensures W.Outcome(Now(), all, via) == W.Walk(env, old(Now()), ParseTerms(record), path)
      decreases W.PATH_LIMIT + 1 - |path|, 4
    {
      var terms := ParseSpfTerms(record);
      var redundant := X.RedundantIPs(env.ip, terms, path[|path| - 1]);
      ReportAll(redundant);
      var own := RecordAll(terms);
      var hasRedirect;
      all, via, hasRedirect := Terms(terms, own, path);
      ghost var st := Now();
      if |path| == 1 && own == "" && !hasRedirect {
        Problem(env.render(NoAll));
        W.ApplyAllOne(st, W.Report(env.render(NoAll)));
      }
    }

    /** The loop of walk over the terms of a record whose own all is `own`. */
    method Terms(terms: seq<Term>, own: string, path: seq<string>)
      returns (all: string, via: string, hasRedirect: bool)
      requires path != [] && |path| <= W.PATH_LIMIT + 1
      modifies this
      ensures W.Outcome(Now(), all, via) == W.WalkTerms(env, old(Now()), terms, own, path, own, "")
      ensures hasRedirect <==> W.HasRedirect(terms)
      decreases W.PATH_LIMIT + 1 - |path|, 3
    {
      ghost var st := Now();
      all, via := own, "";
      hasRedirect := false;
      for i := 0 to |terms|
        invariant W.WalkTerms(env, Now(), terms[i..], own, path, all, via) ==
            W.WalkTerms(env, st, terms, own, path, own, "")
        invariant hasRedirect <==> W.HasRedirect(terms[..i])
      {
        var t := terms[i];
        W.WalkTermsStep(env, Now(), terms, i, own, path, all, via);
        W.HasRedirectSnoc(terms[..i], t);
        assert terms[..i + 1] == terms[..i] + [t];
        if t.name != "redirect" || !t.modifier {
          Mechanism(t, path);
          continue;
        }
        hasRedirect := true;
        if own == "" {
          all, via := Redirect(t, path);
        }
      }
      assert terms[..|terms|] == terms;
    }

    method Redirect(t: Term, path: seq<string>) returns (all: string, via: string)
      requires path != [] && |path| <= W.PATH_LIMIT + 1
      modifies this
      ensures W.Outcome(Now(), all, via) == W.WalkRedirect(env, old(Now()), t, path)
      decreases W.PATH_LIMIT + 1 - |path|, 2
    {
      var target := t.Target();
      ghost var st := Now();
      lookups := lookups + 1;
      assert Now() == W.Apply(st, W.Query);
      var a := Descend(target, path);
      if a != "" {
        return a, "redirect=" + target;
      }
      return "", "";
    }

    method Mechanism(t: Term, path: seq<string>)
      requires path != [] && |path| <= W.PATH_LIMIT + 1
      modifies this
      ensures Now() == W.WalkMechanism(env, old(Now()), t, path)
      decreases W.PATH_LIMIT + 1 - |path|, 2
    {
      if t.name == "include" && !t.modifier {
        var target := t.Target();
        ghost var st := Now();
        lookups := lookups + 1;
        assert Now() == W.Apply(st, W.Query);
        var a := Descend(target, path);
        if a == "+all" {
          NoteAll("+", "include:" + target);
        }
      } else if t.name == "all" && !t.modifier {
      } else {
        Term(t, path[|path| - 1]);
      }
    }

    method Descend(target: string, path: seq<string>) returns (all: string)
      requires path != [] && |path| <= W.PATH_LIMIT + 1
      modifies this
      ensures (Now(), all) == W.Descend(env, old(Now()), target, path)
      decreases W.PATH_LIMIT + 1 - |path|, 1
    {
      if '%' in target || target == "" {
        return "";
      }
      match env.dnsName(target) {
        case NotAName(message) =>
          Problem(env.render(InvalidName(target, message)));
          return "";
        case Name(n) =>
          if n in path {
            Problem(env.render(Loop(path, n)));
            return "";
          }
          NoteInclude(n);
          if lookups > 3 * LOOKUP_LIMIT || |path| > W.PATH_LIMIT {
            return "";
          }
          all := Enter(n, path);
      }
    }

    /** The second half of descend: the fetch, what it shows, and the walk behind it. */
    method Enter(n: string, path: seq<string>) returns (all: string)
      requires path != [] && |path| <= W.PATH_LIMIT && lookups <= W.MAX_FETCHES
      modifies this
      ensures (Now(), all) == W.Enter(env, old(Now()), n, path)
      decreases W.PATH_LIMIT + 1 - |path|, 0
    {
      fetched := fetched + [path + [n]];
      ghost var st := Now();
      var l := env.lookup(n);
      var recs := SpfRecords(l.records);
      if !l.Answered() {
        Problem(env.render(Unchecked(n)));
        W.ApplyAllOne(st, W.Report(env.render(Unchecked(n))));
        return "";
      }
      if !l.HasRecords() {
        void := void + 1;
        Problem(env.render(Missing(n)));
        Two(st, W.NoRecords, W.Report(env.render(Missing(n))));
        return "";
      }
      if |recs| == 0 {
        Problem(env.render(Missing(n)));
        W.ApplyAllOne(st, W.Report(env.render(Missing(n))));
        return "";
      }
      IncludeSize(n, l);
      var via;
      all, via := Walk(recs[0], path + [n]);
    }
  }

  lemma Two(st: W.State, a: W.Event, b: W.Event)
    ensures W.ApplyAll(st, [a, b]) == W.Apply(W.Apply(st, a), b)
  {
    assert [a, b] == [a] + [b];
    W.ApplyAllConcat(st, [a], [b]);
    W.ApplyAllOne(st, a);
    W.ApplyAllOne(W.Apply(st, a), b);
  }

  /** recordAll: the first all mechanism, qualified. */
  method RecordAll(terms: seq<Term>) returns (all: string)
    ensures all == W.RecordAll(terms)
  {
    for i := 0 to |terms|
      invariant W.RecordAll(terms[i..]) == W.RecordAll(terms)
    {
      assert terms[i..][1..] == terms[i + 1..];
      if terms[i].name == "all" && !terms[i].modifier {
        return terms[i].qualifier + "all";
      }
    }
    return "";
  }

  method EvaluateSPF(env: W.Env, domain: string, txt: Lookup) returns (res: W.SPFResult)
    ensures res == W.EvaluateSPF(env, domain, txt)
  {
    var spf := SpfRecords(txt.records);
    if |spf| == 0 {
      return W.SPFResult(0, 0, 0, 0, "", [], []);
    }
    var e := new Evaluator(env);
    ghost var st0 := e.Now();
    if |spf| > 1 {
      e.Problem(env.render(MultipleRecords));
      W.ApplyAllOne(st0, W.Report(env.render(MultipleRecords)));
    }
    var octets := UdpAnswerOctets(txt);
    e.ApexSize(octets);
    W.OpeningSteps(env, st0, txt);
    var all, via := e.Walk(spf[0], [W.BareName(env, domain)]);
    ghost var o := W.Outcome(e.Now(), all, via);
    if all != "" {
      e.NoteAll(all[..1], via);
    }
    W.ClosingSteps(env, o);
    ghost var st1 := e.Now();
    if e.lookups > LOOKUP_LIMIT {
      e.Problem(env.render(LookupLimit(e.lookups)));
      W.ApplyAllOne(st1, W.Report(env.render(LookupLimit(o.st.lookups))));
    }
    ghost var st2 := e.Now();
    if e.void > VOID_LIMIT {
      e.Problem(env.render(VoidLimit(e.void)));
      W.ApplyAllOne(st2, W.Report(env.render(VoidLimit(o.st.void))));
    }
    res := W.SPFResult(|spf|, e.lookups, e.void, octets, all, e.includes, e.problems);
  }
}
