/** A record for which the cutoff hides the void lookups: 31 terms that count, then three
    includes of a name that does not exist. */
module SpfCutoffExample {
  import opened Text
  import opened Records
  import opened SpfTerms
  import opened SpfProblems
  import opened SpfWalk
  import X = SpfPrefixes
  import T = SpfTheorems

  const A := Term("+", "a", "", false)
  const INCLUDE := Term("+", "include", ":b", false)

  // ---------------------------------------------------------------- the record

  function Repeat(t: Term, k: nat): seq<Term> {
    if k == 0 then [] else [t] + Repeat(t, k - 1)
  }

  /** The terms as written, the qualifier left out. */
  function Implicit(ts: seq<Term>): (ws: seq<Written>)
    ensures |ws| == |ts|
  {
    if ts == [] then [] else [Written(ts[0], false)] + Implicit(ts[1..])
  }

  predicate Simple(ts: seq<Term>) {
    forall i :: 0 <= i < |ts| ==> ts[i] == A || ts[i] == INCLUDE
  }

  lemma {:induction false} RepeatSimple(t: Term, k: nat)
    requires t == A || t == INCLUDE
    ensures Simple(Repeat(t, k))
  {
    if k > 0 {
      RepeatSimple(t, k - 1);
    }
  }

  predicate Letters(s: string) {
    s != "" && forall i :: 0 <= i < |s| ==> 'a' <= s[i] <= 'z'
  }

  lemma LettersWellFormed(t: Term)
    requires t.qualifier == "+" && !t.modifier && Letters(t.name) && SpaceFree(t.arg)
    requires t.arg == "" || t.arg[0] == ':'
    ensures WellFormed(Written(t, false))
  {
    LowerAt(t.name);
    assert ToLower(t.name) == t.name;
  }

  lemma SimpleWellFormed(t: Term)
    requires t == A || t == INCLUDE
    ensures WellFormed(Written(t, false))
  {
    LettersWellFormed(t);
  }

  lemma {:induction false} ImplicitTerms(ts: seq<Term>)
    requires Simple(ts)
    ensures AllWellFormed(Implicit(ts)) && TermsOf(Implicit(ts)) == ts
  {
    if ts != [] {
      SimpleWellFormed(ts[0]);
      ImplicitTerms(ts[1..]);
      assert Implicit(ts)[1..] == Implicit(ts[1..]);
    }
  }

  /** A text that nothing is trimmed off. */
  predicate Tight(s: string) {
    s != "" && !IsSpace(s[0]) && !IsSpace(s[|s| - 1])
  }

  lemma TightStays(s: string)
    requires Tight(s)
    ensures TrimSpace(s) == s
  {
  }

  lemma {:induction false} SpacedEnd(fs: seq<string>)
    requires fs != [] && AreFields(fs)
    ensures Spaced(fs) != "" && !IsSpace(Spaced(fs)[|Spaced(fs)| - 1])
  {
    var f := fs[0];
    assert IsField(f);
    if |fs| > 1 {
      SpacedEnd(fs[1..]);
    } else {
      assert fs[1..] == [];
    }
  }

  /** Lower case keeps a front that is lower case already. */
  lemma LowerFront(r: string, front: string)
    requires front <= r && forall i :: 0 <= i < |front| ==> !('A' <= front[i] <= 'Z')
    ensures front <= ToLower(r)
  {
    LowerAt(r);
  }

  lemma VersionIsSpf(r: string)
    requires TrimSpace(r) == r && "v=spf1 " <= r
    ensures IsSpfRecord(r)
  {
    LowerFront(r, "v=spf1 ");
    assert HasPrefix(ToLower(r), "v=spf1 ");
  }

  lemma OneRecord(r: string)
    requires IsSpfRecord(r) && TrimSpace(r) == r
    ensures SpfRecords([r]) == [r]
  {
    assert [r][1..] == [];
  }

  lemma VersionFront(tail: string)
    requires tail != "" && tail[0] == ' '
    ensures "v=spf1 " <= "v=spf1" + tail
  {
  }

  lemma RecordIsSpf(ws: seq<Written>)
    requires AllWellFormed(ws) && ws != []
    ensures SpfRecords([WriteRecord(ws)]) == [WriteRecord(ws)]
  {
    var r, tail := WriteRecord(ws), Spaced(Writes(ws));
    ParseWrites(ws);
    SpacedEnd(Writes(ws));
    VersionFront(tail);
    assert r[|r| - 1] == tail[|tail| - 1];
    TightStays(r);
    VersionIsSpf(r);
    OneRecord(r);
  }

  // --------------------------------------------------------------- the cut walk

  /** No name has an SPF record; "b" is a name, and not the apex. */
  ghost predicate Empty(env: Env) {
    && (forall n: string :: env.lookup(n).status == StatusNXDomain && env.lookup(n).records == [])
    && env.dnsName("b") == Name("b")
  }

  lemma {:induction false} NoPrefixes(ip: X.IPParser, ts: seq<Term>)
    requires Simple(ts)
    ensures X.SpfPrefixesOf(ip, ts) == [] && RecordAll(ts) == ""
  {
    if ts != [] {
      NoPrefixes(ip, ts[1..]);
    }
  }

  lemma RepeatFront(t: Term, k: nat, rest: seq<Term>)
    requires k > 0
    ensures (Repeat(t, k) + rest)[0] == t && (Repeat(t, k) + rest)[1..] == Repeat(t, k - 1) + rest
  {
  }

  lemma {:induction false} CutCounts(env: Env, st: State, k: nat, rest: seq<Term>, path: seq<string>)
    requires path != [] && |path| <= PATH_LIMIT + 1
    ensures WalkTerms(env, st, Repeat(A, k) + rest, "", path, "", "")
         == WalkTerms(env, st.(lookups := st.lookups + k), rest, "", path, "", "")
    decreases k
  {
    if k == 0 {
      assert Repeat(A, k) + rest == rest;
    } else {
      RepeatFront(A, k, rest);
      ApplyAllOne(st, Query);
      CutCounts(env, Apply(st, Query), k - 1, rest, path);
    }
  }

  lemma CutInclude(env: Env, st: State, path: seq<string>)
    requires Empty(env) && path != [] && |path| <= PATH_LIMIT + 1 && "b" !in path && st.lookups > MAX_FETCHES
    ensures WalkMechanism(env, st, INCLUDE, path) == Apply(Apply(st, Query), Include("b"))
  {
    var st' := Apply(Apply(st, Query), Include("b"));
    assert INCLUDE.Target() == "b";
    assert Cut(st', path);
    assert Enter(env, st', "b", path) == (st', "");
    assert Descend(env, Apply(st, Query), "b", path) == (st', "");
  }

  lemma {:induction false} CutIncludes(env: Env, st: State, k: nat, path: seq<string>)
    requires Empty(env) && path != [] && |path| <= PATH_LIMIT + 1 && "b" !in path && st.lookups > MAX_FETCHES
    ensures WalkTerms(env, st, Repeat(INCLUDE, k), "", path, "", "").st.void == st.void
    decreases k
  {
    if k > 0 {
      CutInclude(env, st, path);
      CutIncludes(env, WalkMechanism(env, st, INCLUDE, path), k - 1, path);
    }
  }

  // -------------------------------------------------------------- the uncut walk

  lemma {:induction false} CountConcat(xs: seq<Event>, ys: seq<Event>, e: Event)
    ensures T.Count(xs + ys, e) == T.Count(xs, e) + T.Count(ys, e)
  {
    if xs == [] {
      assert xs + ys == ys;
    } else {
      assert (xs + ys)[1..] == xs[1..] + ys;
      CountConcat(xs[1..], ys, e);
    }
  }

  lemma {:induction false} TraceCounts(env: Env, zone: set<string>, k: nat, rest: seq<Term>, path: seq<string>)
    requires path != [] && FiniteZone(env, zone)
    ensures T.Count(TraceTerms(env, zone, Repeat(A, k) + rest, "", path, "", "").events, NoRecords)
         == T.Count(TraceTerms(env, zone, rest, "", path, "", "").events, NoRecords)
    decreases k
  {
    if k == 0 {
      assert Repeat(A, k) + rest == rest;
    } else {
      RepeatFront(A, k, rest);
      TraceCounts(env, zone, k - 1, rest, path);
      CountConcat([Query], TraceTerms(env, zone, Repeat(A, k - 1) + rest, "", path, "", "").events, NoRecords);
    }
  }

  lemma TraceInclude(env: Env, zone: set<string>, path: seq<string>)
    requires Empty(env) && path != [] && FiniteZone(env, zone) && "b" !in path
    ensures T.Count(TraceMechanism(env, zone, INCLUDE, path), NoRecords) >= 1
  {
    assert INCLUDE.Target() == "b";
    var r := Read(env, "b", env.lookup("b"));
    assert r == Reading([NoRecords, Report(env.render(Missing("b")))], None);
    var es := [Fetch(path + ["b"])] + r.events;
    assert TraceEnter(env, zone, "b", path) == (es, "");
    assert TraceDescend(env, zone, "b", path) == ([Include("b")] + es, "");
    assert TraceMechanism(env, zone, INCLUDE, path) == [Query] + ([Include("b")] + es) + [];
    assert T.Count(r.events, NoRecords) >= 1;
    CountConcat([Fetch(path + ["b"])], r.events, NoRecords);
    CountConcat([Include("b")], es, NoRecords);
    CountConcat([Query], [Include("b")] + es, NoRecords);
    CountConcat([Query] + ([Include("b")] + es), [], NoRecords);
  }

  lemma {:induction false} TraceIncludes(env: Env, zone: set<string>, k: nat, path: seq<string>)
    requires Empty(env) && path != [] && FiniteZone(env, zone) && "b" !in path
    ensures T.Count(TraceTerms(env, zone, Repeat(INCLUDE, k), "", path, "", "").events, NoRecords) >= k
    decreases k
  {
    if k > 0 {
      TraceInclude(env, zone, path);
      TraceIncludes(env, zone, k - 1, path);
      CountConcat(TraceMechanism(env, zone, INCLUDE, path),
        TraceTerms(env, zone, Repeat(INCLUDE, k - 1), "", path, "", "").events, NoRecords);
    }
  }

  // -------------------------------------------------------------- the evaluation

  function Terms(): (ts: seq<Term>) {
    Repeat(A, MAX_FETCHES + 1) + Repeat(INCLUDE, VOID_LIMIT + 1)
  }

  lemma TermsSimple()
    ensures Simple(Terms()) && Terms() != []
  {
    RepeatSimple(A, MAX_FETCHES + 1);
    RepeatSimple(INCLUDE, VOID_LIMIT + 1);
  }

  lemma CutVoids(env: Env, st: State, ts: seq<Term>, path: seq<string>)
    requires Empty(env) && ts == Terms() && |path| == 1 && "b" !in path
    ensures Walk(env, st, ts, path).st.void == st.void
  {
    TermsSimple();
    NoPrefixes(env.ip, ts);
    var st' := st.(lookups := st.lookups + MAX_FETCHES + 1);
    CutCounts(env, st, MAX_FETCHES + 1, Repeat(INCLUDE, VOID_LIMIT + 1), path);
    CutIncludes(env, st', VOID_LIMIT + 1, path);
    ReportsKeepCounts(WalkTerms(env, st, ts, "", path, "", "").st, MissingAll(env, ts, path));
  }

  lemma UncutVoids(env: Env, zone: set<string>, st: State, ts: seq<Term>, path: seq<string>)
    requires Empty(env) && FiniteZone(env, zone) && ts == Terms() && |path| == 1 && "b" !in path
    ensures ApplyAll(st, TraceWalk(env, zone, ts, path).events).void > st.void + VOID_LIMIT
  {
    TermsSimple();
    NoPrefixes(env.ip, ts);
    var inner, after := TraceTerms(env, zone, ts, "", path, "", "").events, MissingAll(env, ts, path);
    TraceCounts(env, zone, MAX_FETCHES + 1, Repeat(INCLUDE, VOID_LIMIT + 1), path);
    TraceIncludes(env, zone, VOID_LIMIT + 1, path);
    assert TraceWalk(env, zone, ts, path).events == inner + after;
    CountConcat(inner, after, NoRecords);
    T.StateIsTally(st, inner + after);
  }

  lemma CutEvaluation(env: Env, domain: string, txt: Lookup, record: string)
    requires Empty(env) && BareName(env, domain) != "b"
    requires SpfRecords(txt.records) == [record] && NonBlank(record) && ParseTerms(record) == Terms()
    ensures EvaluateSPF(env, domain, txt).voidLookups == 0
  {
    var ts, path := Terms(), [BareName(env, domain)];
    var st := ApplyAll(INITIAL, Opening(env, txt));
    ReportsKeepCounts(INITIAL, Opening(env, txt));
    CutVoids(env, st, ts, path);
    T.FinishKeepsCounts(env, Walk(env, st, ts, path));
  }

  lemma UncutEvaluationVoids(env: Env, zone: set<string>, domain: string, txt: Lookup, record: string)
    requires Empty(env) && FiniteZone(env, zone) && BareName(env, domain) != "b"
    requires SpfRecords(txt.records) == [record] && NonBlank(record) && ParseTerms(record) == Terms()
    ensures EvaluateUncut(env, zone, domain, txt).voidLookups > VOID_LIMIT
  {
    var ts, path := Terms(), [BareName(env, domain)];
    var st := ApplyAll(INITIAL, Opening(env, txt));
    ReportsKeepCounts(INITIAL, Opening(env, txt));
    UncutVoids(env, zone, st, ts, path);
    T.FinishKeepsCounts(env, T.After(st, TraceWalk(env, zone, ts, path)));
  }

  lemma EmptyZone(env: Env)
    requires Empty(env)
    ensures FiniteZone(env, {})
  {
  }

  lemma HiddenVoids(env: Env, domain: string, txt: Lookup)
    requires Empty(env) && BareName(env, domain) != "b"
    requires txt.records == [WriteRecord(Implicit(Terms()))]
    ensures FiniteZone(env, {})
    ensures EvaluateSPF(env, domain, txt).voidLookups == 0
    ensures EvaluateUncut(env, {}, domain, txt).voidLookups > VOID_LIMIT
  {
    var ws := Implicit(Terms());
    TermsSimple();
    ImplicitTerms(Terms());
    RecordIsSpf(ws);
    ParseInvertsWrite(ws);
    EmptyZone(env);
    CutEvaluation(env, domain, txt, WriteRecord(ws));
    UncutEvaluationVoids(env, {}, domain, txt, WriteRecord(ws));
  }

  /** Beyond the lookup limit the verdict on void lookups does depend on the cutoff: for this
      record, in a zone without any other, it is given without the cutoff and not with it. */
  lemma VoidVerdictHidden() returns (env: Env, domain: string, txt: Lookup)
    ensures FiniteZone(env, {})
    ensures EvaluateSPF(env, domain, txt).voidLookups == 0
    ensures EvaluateUncut(env, {}, domain, txt).voidLookups > VOID_LIMIT
  {
    var lookup := (n: string) => Lookup(n, "TXT", StatusNXDomain, TrustNone, [], [], []);
    var none := X.IPParser((s: string) => None, (s: string) => None);
    env := Env(lookup, (s: string) => Name(s), none, (p: Problem) => "");
    domain := "c";
    txt := Lookup(domain, "TXT", StatusOK, TrustNone, [WriteRecord(Implicit(Terms()))], [], []);
    assert BareName(env, domain) == "c";
    HiddenVoids(env, domain, txt);
  }
}
