/** Wildcard probing: classifyProbe and setWildcardVerdict of wildcard.go, the staged probing
    of probeWildcard in run.go, and sameAddressSet of report.go. */
module Wildcard {
  import opened Records

  // ------------------------------------------------------------- one probe

  /** The two lookups made for one random name, and the addresses read from them. */
  datatype Probe = Probe(name: string, a: Lookup, aaaa: Lookup, addrsA: seq<int>, addrsAAAA: seq<int>)

  datatype Outcome = Answered | Denied | Unresolved

  function Classify(p: Probe): Outcome {
    if |p.addrsA| > 0 || |p.addrsAAAA| > 0 || |p.a.cname| > 0 || |p.aaaa.cname| > 0 then Answered
    else if p.a.status == StatusNXDomain || p.aaaa.status == StatusNXDomain then Denied
    else if p.a.Answered() && p.aaaa.Answered() then Denied
    else Unresolved
  }

  /** The name has an address or an alias. */
  predicate Exists(p: Probe) {
    p.addrsA + p.addrsAAAA != [] || p.a.cname + p.aaaa.cname != []
  }

  /** The name is known not to exist: NXDOMAIN for one type, or nothing of either. */
  predicate Refuted(p: Probe) {
    !Exists(p) && (StatusNXDomain in {p.a.status, p.aaaa.status} || (p.a.Answered() && p.aaaa.Answered()))
  }

  // ------------------------------------------------------------ the verdict

  datatype Verdict = Present | Absent | Unknown

  /** The verdict, and the probe that settles it: the first denied, else the first unresolved. */
  method SetWildcardVerdict(outcomes: seq<Outcome>) returns (verdict: Verdict, decided: nat)
    ensures verdict == VerdictOf(outcomes)
    ensures verdict == Absent ==> decided < |outcomes| && outcomes[decided] == Denied && Denied !in outcomes[..decided]
    ensures verdict == Unknown ==>
      decided < |outcomes| && outcomes[decided] == Unresolved && Unresolved !in outcomes[..decided]
  {
    for i := 0 to |outcomes|
      invariant Denied !in outcomes[..i]
    {
      if outcomes[i] == Denied {
        return Absent, i;
      }
    }
    for i := 0 to |outcomes|
      invariant Unresolved !in outcomes[..i]
    {
      if outcomes[i] == Unresolved {
        return Unknown, i;
      }
    }
    assert outcomes[..|outcomes|] == outcomes;
    return Present, 0;
  }

  /** One denial outweighs any number of answers; one missing answer leaves it open. */
  function VerdictOf(outcomes: seq<Outcome>): Verdict {
    if Denied in outcomes then Absent else if Unresolved in outcomes then Unknown else Present
  }

  /** The verdict does not depend on the order of the probes. */
  lemma VerdictUnordered(xs: seq<Outcome>, ys: seq<Outcome>)
    requires multiset(xs) == multiset(ys)
    ensures VerdictOf(xs) == VerdictOf(ys)
  {
    assert forall o :: o in xs <==> o in multiset(xs);
    assert forall o :: o in ys <==> o in multiset(ys);
  }

  function Outcomes(probes: seq<Probe>): (os: seq<Outcome>)
    ensures |os| == |probes| && forall i :: 0 <= i < |os| ==> os[i] == Classify(probes[i])
  {
    if probes == [] then [] else [Classify(probes[0])] + Outcomes(probes[1..])
  }

  /** assessWildcard's status; `skip` is the reason no probe was issued. */
  method AssessWildcard(probes: seq<Probe>, skip: string) returns (verdict: Verdict)
    ensures verdict == if skip != "" then Absent else if probes == [] then Unknown else VerdictOf(Outcomes(probes))
  {
    if skip != "" {
      return Absent;
    }
    if |probes| == 0 {
      return Unknown;
    }
    var outcomes: seq<Outcome> := [];
    for i := 0 to |probes|
      invariant outcomes == Outcomes(probes)[..i]
    {
      outcomes := outcomes + [Classify(probes[i])];
    }
    assert outcomes == Outcomes(probes);
    var decided;
    verdict, decided := SetWildcardVerdict(outcomes);
  }

  /** A wildcard is present exactly when every random name exists, and absent exactly when one
      is known not to. */
  lemma VerdictEvidence(probes: seq<Probe>)
    ensures var v := VerdictOf(Outcomes(probes));
      && (v == Present <==> forall p :: p in probes ==> Exists(p))
      && (v == Absent <==> exists p :: p in probes && Refuted(p))
  {
    var os := Outcomes(probes);
    forall i | 0 <= i < |os|
      ensures os[i] == Answered <==> Exists(probes[i])
      ensures os[i] == Denied <==> Refuted(probes[i])
    {
    }
    if Denied in os {
      var i :| 0 <= i < |os| && os[i] == Denied;
      assert probes[i] in probes;
    } else if Unresolved in os {
      var i :| 0 <= i < |os| && os[i] == Unresolved;
      assert probes[i] in probes && !Exists(probes[i]);
    }
    forall p | p in probes && !Exists(p) ensures VerdictOf(os) != Present {
      var i :| 0 <= i < |probes| && probes[i] == p;
      assert os[i] in os;
    }
    forall p | p in probes && Refuted(p) ensures Denied in os {
      var i :| 0 <= i < |probes| && probes[i] == p;
      assert os[i] in os;
    }
  }

  // --------------------------------------------------------- staged probing

  /** The probes issued when the names would answer as in `all`: the first name's alone, or
      all of them when it answers. */
  function Gathered(all: seq<Outcome>): seq<Outcome>
    requires all != []
  {
    if all[0] == Answered then all else [all[0]]
  }

  method ProbeWildcard(labels: seq<string>, probe: string -> Probe) returns (probes: seq<Probe>)
    requires labels != []
    ensures exists all :: |all| == |labels| && (forall i :: 0 <= i < |all| ==> all[i] == probe(labels[i]))
                       && Outcomes(probes) == Gathered(Outcomes(all)) && probes <= all
  {
    ghost var all := seq(|labels|, i requires 0 <= i < |labels| => probe(labels[i]));
    probes := [probe(labels[0])];
    if Classify(probes[0]) != Answered {
      assert Outcomes(probes) == Gathered(Outcomes(all));
      return;
    }
    for i := 1 to |labels|
      invariant probes == all[..i]
    {
      probes := probes + [probe(labels[i])];
    }
    assert all[..|labels|] == all;
  }

  /** Stopping early is sound, whichever name is asked first: "absent" is what all the names
      together would say, and an early "unknown" could never have become "present". */
  lemma StagedSound(all: seq<Outcome>, full: seq<Outcome>)
    requires all != [] && multiset(all) == multiset(full)
    ensures var staged := VerdictOf(Gathered(all));
      && (staged == Absent ==> VerdictOf(full) == Absent)
      && (staged == Present <==> VerdictOf(full) == Present)
      && (staged == Unknown ==> VerdictOf(full) != Present)
      && (staged != VerdictOf(full) <==> all[0] == Unresolved && Denied in full)
  {
    VerdictUnordered(all, full);
    assert all[0] in all && all[0] in multiset(all);
    assert Denied in full <==> Denied in multiset(full);
    assert Denied in all <==> Denied in multiset(all);
  }

  // -------------------------------------------------------- address sets

  function Unmapped(a: seq<int>, unmap: int -> int): set<int> {
    set i | 0 <= i < |a| :: unmap(a[i])
  }

  predicate Distinct(a: seq<int>, unmap: int -> int) {
    forall i, j :: 0 <= i < j < |a| ==> unmap(a[i]) != unmap(a[j])
  }

  method SameAddressSet(a: seq<int>, b: seq<int>, unmap: int -> int) returns (r: bool)
    ensures r <==> |a| == |b| && Unmapped(b, unmap) <= Unmapped(a, unmap)
  {
    if |a| != |b| {
      return false;
    }
    var have: set<int> := {};
    for i := 0 to |a|
      invariant have == Unmapped(a[..i], unmap)
    {
      UnmappedSnoc(a, i, unmap);
      have := have + {unmap(a[i])};
    }
    assert a[..|a|] == a;
    for i := 0 to |b|
      invariant forall k :: 0 <= k < i ==> unmap(b[k]) in have
    {
      if unmap(b[i]) !in have {
        assert unmap(b[i]) in Unmapped(b, unmap);
        return false;
      }
    }
    return true;
  }

  lemma UnmappedSnoc(a: seq<int>, i: nat, unmap: int -> int)
    requires i < |a|
    ensures Unmapped(a[..i + 1], unmap) == Unmapped(a[..i], unmap) + {unmap(a[i])}
  {
    var s := a[..i + 1];
    assert s == a[..i] + [a[i]];
    forall x | x in Unmapped(a[..i], unmap) + {unmap(a[i])} ensures x in Unmapped(s, unmap) {
      if x == unmap(a[i]) {
        assert s[i] == a[i];
      } else {
        var k :| 0 <= k < i && unmap(a[..i][k]) == x;
        assert s[k] == a[..i][k];
      }
    }
    forall x | x in Unmapped(s, unmap) ensures x in Unmapped(a[..i], unmap) + {unmap(a[i])} {
      var k :| 0 <= k < |s| && unmap(s[k]) == x;
      if k < i {
        assert a[..i][k] == s[k];
      }
    }
  }

  lemma {:induction false} DistinctSize(a: seq<int>, unmap: int -> int)
    requires Distinct(a, unmap)
    ensures |Unmapped(a, unmap)| == |a|
  {
    if a != [] {
      var n := |a| - 1;
      assert a == a[..n] + [a[n]];
      SnocSet(a[..n], a[n], unmap);
      DistinctSnoc(a[..n], a[n], unmap);
      DistinctSize(a[..n], unmap);
    }
  }

  lemma SubsetOfSameSize(s: set<int>, t: set<int>)
    requires s <= t && |s| == |t|
    ensures s == t
  {
    assert |t - s| == |t| - |s|;
  }

  /** Pigeonhole: on lists that name no address twice, the one-sided test decides equality. */
  lemma SameSetDecided(a: seq<int>, b: seq<int>, unmap: int -> int)
    requires Distinct(a, unmap) && Distinct(b, unmap)
    ensures |a| == |b| && Unmapped(b, unmap) <= Unmapped(a, unmap) <==> Unmapped(a, unmap) == Unmapped(b, unmap)
  {
    DistinctSize(a, unmap);
    DistinctSize(b, unmap);
    if |a| == |b| && Unmapped(b, unmap) <= Unmapped(a, unmap) {
      SubsetOfSameSize(Unmapped(b, unmap), Unmapped(a, unmap));
    }
  }

  /** `a` with every later repetition dropped. */
  function Deduped(a: seq<int>, unmap: int -> int): seq<int> {
    if a == [] then []
    else
      var n := |a| - 1;
      Deduped(a[..n], unmap) + if unmap(a[n]) in Unmapped(a[..n], unmap) then [] else [a[n]]
  }

  lemma SnocSet(d: seq<int>, x: int, unmap: int -> int)
    ensures Unmapped(d + [x], unmap) == Unmapped(d, unmap) + {unmap(x)}
  {
    var e := d + [x];
    UnmappedSnoc(e, |d|, unmap);
    assert e[..|d|] == d && e[..|d| + 1] == e;
  }

  lemma DistinctSnoc(d: seq<int>, x: int, unmap: int -> int)
    ensures Distinct(d + [x], unmap) <==> Distinct(d, unmap) && unmap(x) !in Unmapped(d, unmap)
  {
    var e := d + [x];
    if Distinct(e, unmap) {
      assert forall i :: 0 <= i < |d| ==> e[i] == d[i];
      assert e[|d|] == x;
    }
    if unmap(x) !in Unmapped(d, unmap) {
      assert forall i :: 0 <= i < |d| ==> unmap(d[i]) in Unmapped(d, unmap);
    }
  }

  lemma {:induction false} DedupedSameSet(a: seq<int>, unmap: int -> int)
    ensures Unmapped(Deduped(a, unmap), unmap) == Unmapped(a, unmap)
    ensures Distinct(Deduped(a, unmap), unmap)
    ensures |Deduped(a, unmap)| <= |a|
    ensures !Distinct(a, unmap) ==> |Deduped(a, unmap)| < |a|
  {
    if a != [] {
      var n := |a| - 1;
      var rest, x := a[..n], a[n];
      assert a == rest + [x];
      DedupedSameSet(rest, unmap);
      SnocSet(rest, x, unmap);
      DistinctSnoc(rest, x, unmap);
      SnocSet(Deduped(rest, unmap), x, unmap);
      DistinctSnoc(Deduped(rest, unmap), x, unmap);
      assert Deduped(rest, unmap) + [] == Deduped(rest, unmap);
    }
  }

  /** Whether the test tells set equality. */
  predicate Decides(a: seq<int>, b: seq<int>, unmap: int -> int) {
    (|a| == |b| && Unmapped(b, unmap) <= Unmapped(a, unmap)) == (Unmapped(a, unmap) == Unmapped(b, unmap))
  }

  /** The guard for a right comparison, on either argument: the lists that can be compared
      with every list free of repetitions, as the first argument or as the second, are exactly
      those free of repetitions themselves. */
  lemma DecidesExactly(xs: seq<int>, unmap: int -> int)
    ensures (forall b: seq<int> :: Distinct(b, unmap) ==> Decides(xs, b, unmap)) <==> Distinct(xs, unmap)
    ensures (forall a: seq<int> :: Distinct(a, unmap) ==> Decides(a, xs, unmap)) <==> Distinct(xs, unmap)
  {
    if Distinct(xs, unmap) {
      forall ys: seq<int> | Distinct(ys, unmap) ensures Decides(xs, ys, unmap) && Decides(ys, xs, unmap) {
        SameSetDecided(xs, ys, unmap);
        SameSetDecided(ys, xs, unmap);
      }
    } else {
      DedupedSameSet(xs, unmap);
      assert !Decides(xs, Deduped(xs, unmap), unmap);
      assert !Decides(Deduped(xs, unmap), xs, unmap);
    }
  }

  /** With a repeated address in the second list the test is one-sided: it takes [1, 1] for
      the set of [1, 2]. */
  lemma RepeatedAddressAccepted()
    ensures var a, b, same := [1, 2], [1, 1], (x: int) => x;
      |a| == |b| && Unmapped(b, same) <= Unmapped(a, same) && Unmapped(a, same) != Unmapped(b, same)
  {
    var a, b, same := [1, 2], [1, 1], (x: int) => x;
    assert same(a[0]) == 1 && same(a[1]) == 2;
    assert 2 in Unmapped(a, same) && 2 !in Unmapped(b, same);
  }
}
