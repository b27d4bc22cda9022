/** Tests on names written as string suffixes, and what they mean for the labels of a name:
    status of preloadlist.go, reservedName, matchesAny, inBailiwick and enclosingZone. */
module Names {
  import opened Text
  import opened Sorting
  import opened PreloadCache

  /** The labels of a name: the dot-free strings that joined with dots give it. An absolute
      name ends with the empty label. */
  ghost function Labels(name: string): (ls: seq<string>)
    ensures |ls| >= 1 && Free(ls, '.') && Join(ls, '.') == name
  {
    JoinSplit(name, '.');
    var ls :| |ls| >= 1 && Free(ls, '.') && Join(ls, '.') == name;
    ls
  }

  /** There is only one such list. */
  lemma LabelsUnique(name: string, ls: seq<string>)
    requires |ls| >= 1 && Free(ls, '.') && Join(ls, '.') == name
    ensures Labels(name) == ls
  {
    SplitJoin(ls, '.');
    SplitJoin(Labels(name), '.');
  }

  /** `s` is `d` without its first `j` labels. */
  ghost predicate Ancestor(d: string, s: string, j: nat) {
    j < |Labels(d)| && Labels(d)[j..] == Labels(s)
  }

  // ------------------------------------------------------ suffixes and labels

  lemma {:induction false} JoinAppend(xs: seq<string>, ys: seq<string>)
    requires xs != [] && ys != []
    ensures Join(xs + ys, '.') == Join(xs, '.') + "." + Join(ys, '.')
  {
    assert (xs + ys)[1..] == xs[1..] + ys;
    if |xs| > 1 {
      JoinAppend(xs[1..], ys);
    } else {
      assert xs[1..] + ys == ys;
    }
  }

  lemma LabelsAppend(x: string, s: string)
    ensures Labels(x + "." + s) == Labels(x) + Labels(s)
  {
    JoinAppend(Labels(x), Labels(s));
    LabelsUnique(x + "." + s, Labels(x) + Labels(s));
  }

  /** Labels determine the name. */
  lemma LabelsInjective(a: string, b: string)
    requires Labels(a) == Labels(b)
    ensures a == b
  {
  }

  lemma SuffixToAncestor(x: string, s: string)
    ensures 1 <= |Labels(x)| < |Labels(x + "." + s)| && Ancestor(x + "." + s, s, |Labels(x)|)
  {
    LabelsAppend(x, s);
  }

  lemma JoinSuffix(xs: seq<string>, ys: seq<string>)
    requires xs != [] && ys != []
    ensures HasSuffix(Join(xs + ys, '.'), "." + Join(ys, '.'))
  {
    JoinAppend(xs, ys);
    EndsWith(Join(xs, '.'), "." + Join(ys, '.'), Join(xs + ys, '.'));
  }

  lemma AncestorToSuffix(d: string, s: string, j: nat)
    requires 1 <= j < |Labels(d)| && Ancestor(d, s, j)
    ensures HasSuffix(d, "." + s)
  {
    JoinSuffix(Labels(d)[..j], Labels(d)[j..]);
    assert Labels(d)[..j] + Labels(d)[j..] == Labels(d);
  }

  lemma EndsWith(x: string, tail: string, d: string)
    requires d == x + tail
    ensures HasSuffix(d, tail)
  {
  }

  /** A dot in front makes a string suffix a suffix of whole labels, and a proper one. */
  lemma SuffixIsAncestor(d: string, s: string)
    ensures HasSuffix(d, "." + s) <==> exists j :: 1 <= j < |Labels(d)| && Ancestor(d, s, j)
  {
    if HasSuffix(d, "." + s) {
      var x := d[..|d| - |s| - 1];
      assert d == x + "." + s;
      SuffixToAncestor(x, s);
    }
    if j :| 1 <= j < |Labels(d)| && Ancestor(d, s, j) {
      AncestorToSuffix(d, s, j);
    }
  }

  /** A name and its ancestors, the name itself included. */
  predicate AtOrUnder(d: string, s: string) {
    d == s || HasSuffix(d, "." + s)
  }

  lemma AtOrUnderIsAncestor(d: string, s: string)
    ensures AtOrUnder(d, s) <==> exists j :: 0 <= j < |Labels(d)| && Ancestor(d, s, j)
  {
    SuffixIsAncestor(d, s);
    if d == s {
      assert Ancestor(d, s, 0);
    }
    if Ancestor(d, s, 0) {
      assert Labels(d)[0..] == Labels(d);
      LabelsInjective(d, s);
    }
  }

  lemma OneLabelOnly(s: string)
    requires '.' !in s
    ensures Labels(s) == [s]
  {
    LabelsUnique(s, [s]);
  }

  lemma DropLabel(rest: string)
    ensures var i := IndexByte(rest, '.');
      (i < 0 <==> |Labels(rest)| == 1) && (i >= 0 ==> Labels(rest)[1..] == Labels(rest[i + 1..]))
  {
    var i := IndexByte(rest, '.');
    if i < 0 {
      OneLabelOnly(rest);
    } else {
      var a, b := rest[..i], rest[i + 1..];
      assert rest == a + "." + b;
      OneLabelOnly(a);
      LabelsAppend(a, b);
    }
  }

  // ------------------------------------------------------ preload-list status

  datatype Status = Unknown | Absent | Preloaded(coveredBy: string, policy: string)

  predicate Covers(entries: Entries, n: string) {
    n in entries && entries[n].includeSubdomains
  }

  /** `anc` is the nearest ancestor of `name` whose entry includes subdomains. */
  ghost predicate NearestCover(entries: Entries, name: string, anc: string, j: nat) {
    && 1 <= j && Ancestor(name, anc, j) && Covers(entries, anc)
    && forall k, other :: 1 <= k < j && Ancestor(name, other, k) ==> !Covers(entries, other)
  }

  /** status: the exact entry, else the nearest ancestor that includes subdomains, and
      "absent" only when there is none. */
  method StatusOf(entries: Entries, name: string) returns (s: Status)
    ensures s.Unknown? <==> entries == map[] || name == ""
    ensures entries != map[] && name != "" && name in entries ==> s == Preloaded("", entries[name].policy)
    ensures !s.Unknown? && name !in entries ==>
      match s
      case Absent => forall j, anc :: 1 <= j && Ancestor(name, anc, j) ==> !Covers(entries, anc)
      case Preloaded(anc, policy) => (exists j :: NearestCover(entries, name, anc, j)) && policy == entries[anc].policy
      case Unknown => false
  {
    if entries == map[] || name == "" {
      return Unknown;
    }
    if name in entries {
      return Preloaded("", entries[name].policy);
    }
    var rest := name;
    ghost var j := 0;
    assert Labels(name)[0..] == Labels(name);
    while true
      invariant Ancestor(name, rest, j)
      invariant forall k, other :: 1 <= k <= j && Ancestor(name, other, k) ==> !Covers(entries, other)
      decreases |Labels(name)| - j
    {
      DropLabel(rest);
      var i := IndexByte(rest, '.');
      if i < 0 {
        assert |Labels(name)| == j + 1;
        return Absent;
      }
      assert Labels(name)[j..][1..] == Labels(name)[j + 1..];
      rest := rest[i + 1..];
      j := j + 1;
      if rest in entries && entries[rest].includeSubdomains {
        assert NearestCover(entries, name, rest, j);
        return Preloaded(rest, entries[rest].policy);
      }
      forall other | Ancestor(name, other, j) ensures !Covers(entries, other) {
        LabelsInjective(other, rest);
      }
    }
  }

  // --------------------------------------------------------- reserved suffixes

  const RESERVED: map<string, string> := map[
    "invalid" := "RFC 6761", "test" := "RFC 6761", "localhost" := "RFC 6761", "example" := "RFC 6761",
    "local" := "RFC 6762", "onion" := "RFC 7686", "home.arpa" := "RFC 8375"]

  ghost function LastLabel(name: string): string {
    Labels(name)[|Labels(name)| - 1]
  }

  lemma LastOfAncestor(d: string, s: string, j: nat)
    requires Ancestor(d, s, j)
    ensures LastLabel(d) == LastLabel(s)
  {
    var ls, n := Labels(d), |Labels(d)|;
    assert ls[j..][n - j - 1] == ls[n - 1];
  }

  lemma LastLabelKept(d: string, s: string)
    requires AtOrUnder(d, s)
    ensures LastLabel(d) == LastLabel(s)
  {
    AtOrUnderIsAncestor(d, s);
    var j :| 0 <= j < |Labels(d)| && Ancestor(d, s, j);
    LastOfAncestor(d, s, j);
  }

  lemma OneLabel(s: string)
    requires '.' !in s
    ensures LastLabel(s) == s
  {
    OneLabelOnly(s);
  }

  lemma HomeArpa()
    ensures LastLabel("home.arpa") == "arpa"
  {
    assert "home.arpa" == "home" + "." + "arpa";
    OneLabelOnly("home");
    OneLabelOnly("arpa");
    LabelsAppend("home", "arpa");
  }

  /** A short way to tell the last labels of the reserved suffixes apart. */
  function Mark(s: string): (nat, char) {
    (|s|, if s == "" then '.' else s[0])
  }

  lemma ReservedMarks(s: string)
    requires s in RESERVED
    ensures Mark(LastLabel(s)) == if s == "home.arpa" then (4, 'a') else Mark(s)
  {
    if s == "home.arpa" {
      HomeArpa();
    } else {
      OneLabel(s);
    }
  }

  lemma MarksDiffer(s: string, t: string)
    requires s in RESERVED && t in RESERVED
    requires (if s == "home.arpa" then (4, 'a') else Mark(s)) == (if t == "home.arpa" then (4, 'a') else Mark(t))
    ensures s == t
  {
  }

  /** No reserved suffix ends another, so no name is under two of them. */
  lemma ReservedOnce(d: string, s: string, t: string)
    requires s in RESERVED && t in RESERVED && AtOrUnder(d, s) && AtOrUnder(d, t)
    ensures s == t
  {
    LastLabelKept(d, s);
    LastLabelKept(d, t);
    ReservedMarks(s);
    ReservedMarks(t);
    MarksDiffer(s, t);
  }

  /** reservedName, whatever order the map is iterated in. */
  method ReservedName(name: string, order: seq<string>) returns (rfc: string)
    requires forall s :: s in order <==> s in RESERVED
    ensures rfc == "" <==> name == "" || forall s, j :: s in RESERVED ==> !Ancestor(name, s, j)
    ensures name != "" ==> forall s, j :: s in RESERVED && Ancestor(name, s, j) ==> rfc == RESERVED[s]
  {
    if name == "" {
      return "";
    }
    for i := 0 to |order|
      invariant forall k, j :: 0 <= k < i ==> !Ancestor(name, order[k], j)
    {
      AtOrUnderIsAncestor(name, order[i]);
      assert order[i] in order;
      if name == order[i] || HasSuffix(name, "." + order[i]) {
        forall s, j | s in RESERVED && Ancestor(name, s, j) ensures s == order[i] {
          AtOrUnderIsAncestor(name, s);
          ReservedOnce(name, s, order[i]);
        }
        return RESERVED[order[i]];
      }
    }
    return "";
  }

  // ------------------------------------------------- MTA-STS host patterns

  ghost predicate PatternMatches(pattern: string, host: string, dnsName: string -> Option<string>) {
    var n := dnsName(TrimPrefix(pattern, "*."));
    n.Some? && MatchesPattern(host, n.value, HasPrefix(pattern, "*."))
  }

  /** A pattern's name, and whether it stands for the names one label below. */
  ghost predicate MatchesPattern(host: string, n: string, wild: bool) {
    if wild then |Labels(host)| >= 2 && Labels(host)[1..] == Labels(n) else host == n
  }

  /** matchesAny: the host is a pattern's name, or exactly one label below that of a "*."
      pattern; a pattern that is no name matches nothing. */
  method MatchesAny(patterns: seq<string>, host: string, dnsName: string -> Option<string>) returns (r: bool)
    ensures r <==> exists k :: 0 <= k < |patterns| && PatternMatches(patterns[k], host, dnsName)
  {
    for i := 0 to |patterns|
      invariant forall k :: 0 <= k < i ==> !PatternMatches(patterns[k], host, dnsName)
    {
      var p := patterns[i];
      var wild := HasPrefix(p, "*.");
      var n := dnsName(TrimPrefix(p, "*."));
      if n.None? {
        continue;
      }
      if !wild && n.value == host {
        return true;
      }
      if wild {
        var first := host[..IndexByte(host + ".", '.')] + ".";
        FirstLabel(host, n.value);
        if HasPrefix(host, first) && host[|first|..] == n.value {
          return true;
        }
      }
    }
    return false;
  }

  lemma FirstLabel(host: string, n: string)
    ensures IndexByte(host + ".", '.') <= |host|
    ensures var first := host[..IndexByte(host + ".", '.')] + ".";
      HasPrefix(host, first) && host[|first|..] == n <==> MatchesPattern(host, n, true)
  {
    var i := IndexByte(host, '.');
    DropLabel(host);
    if i < 0 {
      FirstIndex(host, '.', "");
      assert host + "." == host + ['.'] + "";
    } else {
      assert host == host[..i] + ['.'] + host[i + 1..];
      assert host + "." == host[..i] + ['.'] + (host[i + 1..] + ".");
      FirstIndex(host[..i], '.', host[i + 1..] + ".");
      if Labels(host[i + 1..]) == Labels(n) {
        LabelsInjective(host[i + 1..], n);
      }
    }
  }

  // --------------------------------------------------- names inside a zone

  /** inBailiwick, against labels: the result holds exactly the names whose labels end in those
      of the zone, and its order is strict. */
  method InBailiwick(names: seq<string>, fqdn: string, fqdnOf: string -> string) returns (out: seq<string>)
    ensures Sorted(out)
    ensures forall n :: n in out <==>
      exists k, j :: 0 <= k < |names| && fqdnOf(names[k]) == n && Ancestor(n, fqdn, j)
  {
    var found: seq<string> := [];
    for i := 0 to |names|
      invariant forall k, l :: 0 <= k < l < |found| ==> found[k] != found[l]
      invariant forall n :: n in found <==> AtOrUnder(n, fqdn) && exists k :: 0 <= k < i && fqdnOf(names[k]) == n
    {
      var abs := fqdnOf(names[i]);
      if (abs == fqdn || HasSuffix(abs, "." + fqdn)) && abs !in found {
        found := found + [abs];
      }
    }
    out := SortStrings(found);
    forall n ensures n in out <==> exists k, j :: 0 <= k < |names| && fqdnOf(names[k]) == n && Ancestor(n, fqdn, j) {
      AtOrUnderIsAncestor(n, fqdn);
    }
  }

  /** `owner` lies strictly above the domain, and is not the root. */
  ghost predicate Encloses(owner: string, domain: string) {
    owner != "" && exists j :: j >= 1 && Ancestor(domain + ".", owner, j)
  }

  /** enclosingZone: the first of the SOA owners, in the order of the types asked, that lies
      strictly above the name. `bare` is bareName. */
  method EnclosingZone(domain: string, owners: seq<string>, bare: string -> string) returns (zone: string)
    ensures
      || (zone == "" && forall k :: 0 <= k < |owners| ==> !Encloses(owners[k], domain))
      || exists k :: 0 <= k < |owners| && Encloses(owners[k], domain) && zone == bare(owners[k])
           && forall l :: 0 <= l < k ==> !Encloses(owners[l], domain)
  {
    var fqdn := domain + ".";
    for i := 0 to |owners|
      invariant forall k :: 0 <= k < i ==> !Encloses(owners[k], domain)
    {
      SuffixIsAncestor(fqdn, owners[i]);
      if owners[i] != "" && owners[i] != fqdn && HasSuffix(fqdn, "." + owners[i]) {
        return bare(owners[i]);
      }
    }
    return "";
  }
}
