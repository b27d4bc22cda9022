/** What an SPF record says, one visit of a record at a time: which of its terms count as
    lookups, which lead to other records, what is wrong with it, and the all it ends with. This
    is read off the terms and their names; the walk has no part in it. */
module SpfVisits {
  import opened Text
  import opened Records
  import opened SpfTerms
  import opened SpfProblems
  import opened SpfWalk
  import X = SpfPrefixes

  // -------------------------------------------------------------------- terms

  predicate IsAllMechanism(t: Term) {
    t.name == "all" && !t.modifier
  }

  predicate IsRedirectModifier(t: Term) {
    t.name == "redirect" && t.modifier
  }

  predicate IsIncludeMechanism(t: Term) {
    t.name == "include" && !t.modifier
  }

  predicate HasAll(terms: seq<Term>) {
    exists i :: 0 <= i < |terms| && IsAllMechanism(terms[i])
  }

  predicate HasRedirectModifier(terms: seq<Term>) {
    exists i :: 0 <= i < |terms| && IsRedirectModifier(terms[i])
  }

  /** A redirect beside an all is ignored. */
  predicate Refers(t: Term, hasAll: bool) {
    IsIncludeMechanism(t) || (IsRedirectModifier(t) && !hasAll)
  }

  /** The terms that section 4.6.4 of RFC 7208 counts. */
  predicate Looks(t: Term, hasAll: bool) {
    t.name in {"a", "mx", "ptr", "exists"} || Refers(t, hasAll)
  }

  predicate Unknown(t: Term) {
    !t.modifier && t.name !in {"a", "mx", "ptr", "exists", "ip4", "ip6", "include", "all"}
  }

  /** The domain a term names behind its colon or equals sign. */
  function Target(t: Term): string {
    if t.arg != "" && t.arg[0] == ':' then t.arg[1..] else t.arg
  }

  /** What the normaliser makes of the target of a term, when there is one to make out. */
  function TargetName(env: Env, t: Term): Option<NameResult> {
    if Target(t) == "" || '%' in Target(t) then None else Some(env.dnsName(Target(t)))
  }

  /** The domain a term leads to from the end of a path: one that is not on it. */
  function LeadsTo(env: Env, path: seq<string>, t: Term, hasAll: bool): Option<string> {
    if !Refers(t, hasAll) then None
    else
      match TargetName(env, t)
      case Some(Name(n)) => if n in path then None else Some(n)
      case _ => None
  }

  // ------------------------------------------------------------------ records

  /** The answer for a name is definite and shows no TXT record. */
  predicate IsVoid(env: Env, n: string) {
    var l := env.lookup(n);
    l.status == StatusNXDomain || l.status == StatusNXRRSet || (l.status == StatusOK && l.records == [])
  }

  predicate Unanswered(env: Env, n: string) {
    env.lookup(n).status == StatusFailure || env.lookup(n).status == StatusTimeout
  }

  /** The terms of a domain's SPF record. */
  function RecordAt(env: Env, n: string): Option<seq<Term>> {
    var l := env.lookup(n);
    if l.status == StatusOK && SpfRecords(l.records) != [] then Some(ParseTerms(SpfRecords(l.records)[0])) else None
  }

  lemma {:induction false} SpfNeedsRecords(txt: seq<string>)
    requires SpfRecords(txt) != []
    ensures txt != []
  {
  }

  // ------------------------------------------------------------- the ending all

  function FirstAll(terms: seq<Term>): (i: nat)
    requires HasAll(terms)
    ensures i < |terms| && IsAllMechanism(terms[i]) && forall j :: 0 <= j < i ==> !IsAllMechanism(terms[j])
  {
    if IsAllMechanism(terms[0]) then 0
    else
      AllBehindFirst(terms);
      1 + FirstAll(terms[1..])
  }

  lemma AllBehindFirst(terms: seq<Term>)
    requires HasAll(terms) && !IsAllMechanism(terms[0])
    ensures HasAll(terms[1..])
  {
    var i :| 0 <= i < |terms| && IsAllMechanism(terms[i]);
    assert terms[1..][i - 1] == terms[i];
  }

  function LastRedirect(terms: seq<Term>): (i: nat)
    requires HasRedirectModifier(terms)
    ensures i < |terms| && IsRedirectModifier(terms[i])
    ensures forall j :: i < j < |terms| ==> !IsRedirectModifier(terms[j])
  {
    var n := |terms| - 1;
    if IsRedirectModifier(terms[n]) then n
    else
      assert HasRedirectModifier(terms[..n]);
      LastRedirect(terms[..n])
  }

  /** The all a record ends with: its own first, else that of its last redirect's target. */
  function EndAll(env: Env, zone: set<string>, path: seq<string>, terms: seq<Term>): string
    requires FiniteZone(env, zone)
    decreases zone - PathSet(path), 1
  {
    if HasAll(terms) then terms[FirstAll(terms)].qualifier + "all"
    else if HasRedirectModifier(terms) then AllBehind(env, zone, path, terms[LastRedirect(terms)])
    else ""
  }

  /** The all of the record a term leads to. */
  function AllBehind(env: Env, zone: set<string>, path: seq<string>, t: Term): string
    requires FiniteZone(env, zone)
    decreases zone - PathSet(path), 0
  {
    match LeadsTo(env, path, t, false)
    case None => ""
    case Some(n) =>
      match RecordAt(env, n)
      case None => ""
      case Some(ts) =>
        PathGrows(zone, path, n);
        EndAll(env, zone, path + [n], ts)
  }

  /** The redirect that the all came through. */
  function EndVia(env: Env, zone: set<string>, path: seq<string>, terms: seq<Term>): string
    requires FiniteZone(env, zone)
  {
    if HasAll(terms) || !HasRedirectModifier(terms) || EndAll(env, zone, path, terms) == "" then ""
    else "redirect=" + Target(terms[LastRedirect(terms)])
  }

  // ---------------------------------------------------------- what is reported

  /** What a term is reported for on a visit of its record along `path`. */
  ghost predicate TermReports(
    env: Env, zone: set<string>, path: seq<string>, t: Term, hasAll: bool, p: Problem)
    requires FiniteZone(env, zone) && path != []
  {
    match p
    case Ptr => t.name == "ptr"
    case UnknownMechanism(name, domain) => Unknown(t) && name == t.name && domain == path[|path| - 1]
    case InvalidName(target, message) =>
      Refers(t, hasAll) && target == Target(t) && TargetName(env, t) == Some(NotAName(message))
    case Loop(loop, n) => Refers(t, hasAll) && loop == path && n in path && TargetName(env, t) == Some(Name(n))
    case PassAll(via) =>
      IsIncludeMechanism(t) && AllBehind(env, zone, path, t) == "+all" && via == "include:" + Target(t)
    case _ => false
  }

  /** What a record is reported for as a whole. */
  ghost predicate RecordReports(env: Env, path: seq<string>, terms: seq<Term>, p: Problem)
    requires path != []
  {
    || p in X.RedundantProblems(X.SpfPrefixesOf(env.ip, terms), path[|path| - 1], 0)
    || (p == NoAll && |path| == 1 && !HasAll(terms) && !HasRedirectModifier(terms))
  }

  /** What the answer for an included or redirected-to name is reported for. */
  predicate AnswerReports(env: Env, n: string, p: Problem) {
    match p
    case Unchecked(target) => target == n && Unanswered(env, n)
    case Missing(target) => target == n && !Unanswered(env, n) && RecordAt(env, n).None?
    case IncludeOver(target, octets) =>
      target == n && RecordAt(env, n).Some? && octets == AnswerOctets(env.lookup(n)) && octets > 512
    case _ => false
  }
}
