/** redundantIPs of mail.go, with prefixes as blocks of addresses: what it reports, and what
    deleting the mechanisms it reports does to the senders a record covers. */
module SpfPrefixes {
  import opened Text
  import opened SpfTerms
  import opened Arithmetic
  import P = SpfProblems

  // ------------------------------------------------ addresses and prefixes

  datatype Family = V4 | V6

  function Width(f: Family): nat {
    if f == V4 then 32 else 128
  }

  datatype RawAddress = Address(family: Family, value: nat)

  type Address = a: RawAddress | a.value < Pow2(Width(a.family)) witness Address(V4, 0)

  datatype RawPrefix = Prefix(family: Family, addr: nat, bits: nat)

  type Prefix = p: RawPrefix | p.addr < Pow2(Width(p.family)) && p.bits <= Width(p.family)
    witness Prefix(V4, 0, 0)

  /** How many addresses a prefix holds. */
  function Size(p: Prefix): (n: nat)
    ensures n >= 1
  {
    Pow2(Width(p.family) - p.bits)
  }

  predicate IsMasked(p: Prefix) {
    p.addr == Size(p) * (p.addr / Size(p))
  }

  /** The prefix with its host bits cleared. */
  function Masked(p: Prefix): (m: Prefix)
    ensures IsMasked(m) && m.family == p.family && m.bits == p.bits
  {
    Prefix(p.family, BlockStart(p.addr, Size(p)), p.bits)
  }

  /** The leading bits of the address are the prefix's. */
  predicate Inside(p: Prefix, a: Address) {
    a.family == p.family && a.value / Size(p) == p.addr / Size(p)
  }

  /** Every address of `p` is one of `q`. */
  ghost predicate Within(p: Prefix, q: Prefix) {
    forall a: Address :: Inside(p, a) ==> Inside(q, a)
  }

  function First(p: Prefix): Address {
    Address(p.family, p.addr)
  }

  /** The test of the inner loop: `q` is no longer than `p` and holds its address. */
  predicate Holds(q: Prefix, p: Prefix) {
    q.bits <= p.bits && Inside(q, First(p))
  }

  // ------------------------------------------- prefixes as address sets

  /** Clearing the host bits does not change which addresses a prefix holds. */
  lemma MaskedSameAddresses(p: Prefix, a: Address)
    ensures Inside(Masked(p), a) <==> Inside(p, a)
  {
  }

  /** A longer prefix's size divides a shorter one's. */
  lemma SizeFactor(q: Prefix, p: Prefix)
    requires q.family == p.family && q.bits <= p.bits
    ensures Size(q) == Size(p) * Pow2(p.bits - q.bits)
  {
    Pow2Add(Width(p.family) - p.bits, p.bits - q.bits);
  }

  lemma HoldsImpliesWithin(q: Prefix, p: Prefix)
    requires Holds(q, p)
    ensures Within(p, q)
  {
    var k := Pow2(p.bits - q.bits);
    SizeFactor(q, p);
    forall a: Address | Inside(p, a) ensures Inside(q, a) {
      DivDiv(a.value, Size(p), k);
      DivDiv(p.addr, Size(p), k);
    }
  }

  /** The last address of a masked prefix is still an address of its family. */
  lemma BlockFits(p: Prefix)
    requires IsMasked(p)
    ensures p.addr + Size(p) <= Pow2(Width(p.family))
  {
    Pow2Add(Width(p.family) - p.bits, p.bits);
    BlockRoom(Size(p), p.addr / Size(p), Pow2(p.bits));
  }

  /** A masked prefix holds the address `d` past its first, for every `d` below its size. */
  lemma OffsetInside(p: Prefix, d: nat)
    requires IsMasked(p) && d < Size(p)
    ensures p.addr + d < Pow2(Width(p.family))
    ensures (p.addr + d) / Size(p) == p.addr / Size(p)
  {
    BlockFits(p);
    MulStep(Size(p), p.addr / Size(p));
    DivUnique(p.addr + d, Size(p), p.addr / Size(p));
  }

  lemma WithinImpliesHolds(p: Prefix, q: Prefix)
    requires IsMasked(p) && IsMasked(q) && Within(p, q)
    ensures Holds(q, p)
  {
    assert Inside(p, First(p));
    if q.bits > p.bits {
      // The address one q-block further is still in p, but no longer in q.
      var m := Size(q);
      SizeFactor(p, q);
      MulMono(m, 2, Pow2(q.bits - p.bits));
      OffsetInside(p, m);
      var a: Address := Address(p.family, p.addr + m);
      assert Inside(p, a);
      OneBlockFurther(p.addr, m);
    }
  }

  /** Two masked prefixes with the same addresses are the same prefix. */
  lemma SameAddressesSamePrefix(p: Prefix, q: Prefix)
    requires IsMasked(p) && IsMasked(q)
    ensures p == q <==> Within(p, q) && Within(q, p)
  {
    if Within(p, q) && Within(q, p) {
      WithinImpliesHolds(p, q);
      WithinImpliesHolds(q, p);
    }
  }

  // ------------------------------------------------------- leading bits

  /** The bit at place `i` of a `width`-bit number, the leading bit being at place 0. */
  function Bit(v: nat, width: nat, i: nat): nat
    requires i < width
  {
    v / Pow2(width - 1 - i) % 2
  }

  predicate SameLeading(u: nat, v: nat, width: nat, bits: nat)
    requires bits <= width
  {
    forall i :: 0 <= i < bits ==> Bit(u, width, i) == Bit(v, width, i)
  }

  /** One bit more. */
  lemma NextBit(v: nat, width: nat, b: nat)
    requires b < width
    ensures v / Pow2(width - b - 1) == 2 * (v / Pow2(width - b)) + Bit(v, width, b)
  {
    var k := Pow2(width - b - 1);
    assert Pow2(width - b) == k * 2;
    DivDiv(v, k, 2);
  }

  lemma {:induction false} LeadingBits(u: nat, v: nat, width: nat, b: nat)
    requires b <= width && u < Pow2(width) && v < Pow2(width)
    ensures u / Pow2(width - b) == v / Pow2(width - b) <==> SameLeading(u, v, width, b)
  {
    if b == 0 {
      DivSmall(u, Pow2(width));
      DivSmall(v, Pow2(width));
    } else {
      LeadingBits(u, v, width, b - 1);
      NextBit(u, width, b - 1);
      NextBit(v, width, b - 1);
      assert SameLeading(u, v, width, b) <==>
        SameLeading(u, v, width, b - 1) && Bit(u, width, b - 1) == Bit(v, width, b - 1);
    }
  }

  lemma DivSmall(v: nat, m: nat)
    requires v < m
    ensures v / m == 0
  {
  }

  /** An address is inside a prefix exactly when it is of its family, 32 bits wide or 128, and
      has its leading bits. */
  lemma InsideIsLeadingBits(p: Prefix, a: Address)
    ensures Inside(p, a) <==>
      a.family == p.family && SameLeading(p.addr, a.value, if p.family == V4 then 32 else 128, p.bits)
  {
    if a.family == p.family {
      LeadingBits(a.value, p.addr, Width(p.family), p.bits);
    }
  }

  lemma FullPrefixHoldsOne(a: Address, b: Address)
    ensures Inside(Prefix(a.family, a.value, if a.family == V4 then 32 else 128), b) <==> b == a
  {
    assert Pow2(0) == 1;
  }

  // -------------------------------------------------------------- mechanisms

  /** One ip4/ip6 mechanism, its text as written. */
  datatype Mechanism = Mechanism(text: string, qualifier: string, prefix: Prefix)

  type Mechanisms = ms: seq<Mechanism> | forall i :: 0 <= i < |ms| ==> IsMasked(ms[i].prefix)

  /** The address parsers of Go's netip package. */
  datatype IPParser = IPParser(parsePrefix: string -> Option<Prefix>, parseAddr: string -> Option<Address>)

  function PrefixOf(ip: IPParser, arg: string): Option<Prefix> {
    match ip.parsePrefix(arg)
    case Some(p) => Some(p)
    case None =>
      match ip.parseAddr(arg)
      case Some(a) => Some(Prefix(a.family, a.value, Width(a.family)))
      case None => None
  }

  function MechanismOf(ip: IPParser, t: Term): (m: Option<Mechanism>)
    ensures m.Some? ==> IsMasked(m.value.prefix) && t.IsIP()
    ensures m.Some? ==> m.value.text == t.name + ":" + TrimPrefix(t.arg, ":")
  {
    if !t.IsIP() then None
    else
      var arg := TrimPrefix(t.arg, ":");
      match PrefixOf(ip, arg)
      case None => None
      case Some(p) =>
        Some(Mechanism(t.name + ":" + arg, if t.qualifier != "" then t.qualifier else "+", Masked(p)))
  }

  function SpfPrefixesOf(ip: IPParser, terms: seq<Term>): Mechanisms {
    if terms == [] then []
    else
      match MechanismOf(ip, terms[0])
      case None => SpfPrefixesOf(ip, terms[1..])
      case Some(m) => [m] + SpfPrefixesOf(ip, terms[1..])
  }

  method ParseMechanism(ip: IPParser, t: Term) returns (m: Option<Mechanism>)
    ensures m == MechanismOf(ip, t)
    ensures m.Some? <==> NamesAddresses(ip, t)
    ensures m.Some? ==> StandsFor(ip, m.value, t)
  {
    MechanismMeans(ip, t);
    if t.modifier || (t.name != "ip4" && t.name != "ip6") {
      return None;
    }
    var arg := TrimPrefix(t.arg, ":");
    var p := ip.parsePrefix(arg);
    if p.None? {
      var a := ip.parseAddr(arg);
      if a.None? {
        return None;
      }
      p := Some(Prefix(a.value.family, a.value.value, Width(a.value.family)));
    }
    return Some(Mechanism(t.name + ":" + arg, if t.qualifier != "" then t.qualifier else "+", Masked(p.value)));
  }

  // ------------------------------------------------ what a term stands for

  /** The text behind the name of a mechanism and its colon. */
  function Argument(t: Term): string {
    if t.arg != "" && t.arg[0] == ':' then t.arg[1..] else t.arg
  }

  predicate NamesAddresses(ip: IPParser, t: Term) {
    && !t.modifier && (t.name == "ip4" || t.name == "ip6")
    && (ip.parsePrefix(Argument(t)).Some? || ip.parseAddr(Argument(t)).Some?)
  }

  /** A term holds an address: of the prefix it names, or the one it names. */
  predicate TermHolds(ip: IPParser, t: Term, a: Address) {
    && NamesAddresses(ip, t)
    && match ip.parsePrefix(Argument(t))
       case Some(p) => a.family == p.family && SameLeading(p.addr, a.value, if p.family == V4 then 32 else 128, p.bits)
       case None => ip.parseAddr(Argument(t)) == Some(a)
  }

  /** A mechanism stands for a term: its text, its qualifier, which is + when left out, and the
      addresses it holds. */
  ghost predicate StandsFor(ip: IPParser, m: Mechanism, t: Term) {
    && m.text == t.name + ":" + Argument(t)
    && m.qualifier == (if t.qualifier == "" then "+" else t.qualifier)
    && forall a: Address :: Inside(m.prefix, a) <==> TermHolds(ip, t, a)
  }

  /** There is a mechanism exactly for the terms that name addresses, and it stands for its term. */
  lemma MechanismMeans(ip: IPParser, t: Term)
    ensures MechanismOf(ip, t).Some? <==> NamesAddresses(ip, t)
    ensures MechanismOf(ip, t).Some? ==> StandsFor(ip, MechanismOf(ip, t).value, t)
  {
    assert TrimPrefix(t.arg, ":") == Argument(t);
    if MechanismOf(ip, t).Some? {
      var m := MechanismOf(ip, t).value;
      var p := PrefixOf(ip, Argument(t)).value;
      forall a: Address ensures Inside(m.prefix, a) <==> TermHolds(ip, t, a) {
        MaskedSameAddresses(p, a);
        InsideIsLeadingBits(p, a);
        if ip.parsePrefix(Argument(t)).None? {
          FullPrefixHoldsOne(ip.parseAddr(Argument(t)).value, a);
        }
      }
    }
  }

  /** The terms of a record that name addresses. */
  function Naming(ip: IPParser, terms: seq<Term>): (ts: seq<Term>)
    ensures forall t :: t in ts <==> t in terms && NamesAddresses(ip, t)
  {
    if terms == [] then []
    else
      assert forall t :: t in terms <==> t == terms[0] || t in terms[1..];
      (if NamesAddresses(ip, terms[0]) then [terms[0]] else []) + Naming(ip, terms[1..])
  }

  ghost predicate StandForAll(ip: IPParser, ms: Mechanisms, ts: seq<Term>) {
    |ms| == |ts| && forall k :: 0 <= k < |ms| ==> StandsFor(ip, ms[k], ts[k])
  }

  lemma StandForCons(ip: IPParser, m: Mechanism, ms: Mechanisms, t: Term, ts: seq<Term>)
    requires IsMasked(m.prefix) && StandsFor(ip, m, t) && StandForAll(ip, ms, ts)
    ensures StandForAll(ip, [m] + ms, [t] + ts)
  {
  }

  /** The mechanisms of a record stand, in order, for its terms that name addresses. */
  lemma {:induction false} PrefixesStandForTerms(ip: IPParser, terms: seq<Term>)
    ensures StandForAll(ip, SpfPrefixesOf(ip, terms), Naming(ip, terms))
  {
    if terms != [] {
      PrefixesStandForTerms(ip, terms[1..]);
      MechanismMeans(ip, terms[0]);
      var rest := SpfPrefixesOf(ip, terms[1..]);
      match MechanismOf(ip, terms[0])
      case None => assert Naming(ip, terms) == Naming(ip, terms[1..]);
      case Some(m) => StandForCons(ip, m, rest, terms[0], Naming(ip, terms[1..]));
    }
  }

  method SpfPrefixes(ip: IPParser, terms: seq<Term>) returns (out: Mechanisms)
    ensures out == SpfPrefixesOf(ip, terms)
  {
    out := [];
    for i := 0 to |terms|
      invariant out + SpfPrefixesOf(ip, terms[i..]) == SpfPrefixesOf(ip, terms)
    {
      assert terms[i..][1..] == terms[i + 1..];
      var m := ParseMechanism(ip, terms[i]);
      if m.None? {
        continue;
      }
      out := out + [m.value];
    }
  }

  // ------------------------------------------------------------- redundancy

  /** Mechanism `j` makes mechanism `i` redundant; of duplicates only the later copy is. */
  predicate Covers(ms: Mechanisms, j: nat, i: nat)
    requires i < |ms| && j < |ms|
  {
    && j != i
    && ms[j].qualifier == ms[i].qualifier
    && Holds(ms[j].prefix, ms[i].prefix)
    && !(ms[j].prefix == ms[i].prefix && j > i)
  }

  predicate Redundant(ms: Mechanisms, i: nat)
    requires i < |ms|
  {
    exists j :: 0 <= j < |ms| && Covers(ms, j, i)
  }

  /** The first mechanism from `j` on that covers `i`. */
  function FirstCover(ms: Mechanisms, i: nat, j: nat): (r: Option<nat>)
    requires i < |ms| && j <= |ms|
    ensures r.Some? ==> j <= r.value < |ms| && Covers(ms, r.value, i)
    ensures r.None? ==> forall k :: j <= k < |ms| ==> !Covers(ms, k, i)
    decreases |ms| - j
  {
    if j == |ms| then None
    else if Covers(ms, j, i) then Some(j)
    else FirstCover(ms, i, j + 1)
  }

  /** What is reported about the mechanisms from `i` on; the evaluator renders it. */
  function RedundantProblems(ms: Mechanisms, domain: string, i: nat): seq<P.Problem>
    requires i <= |ms|
    decreases |ms| - i
  {
    if i == |ms| then []
    else
      match FirstCover(ms, i, 0)
      case None => RedundantProblems(ms, domain, i + 1)
      case Some(j) => [P.Redundant(ms[i].text, ms[j].text, domain)] + RedundantProblems(ms, domain, i + 1)
  }

  /** The inner loop: the first mechanism that makes `i` redundant. */
  method FindCover(prefixes: Mechanisms, i: nat) returns (r: Option<nat>)
    requires i < |prefixes|
    ensures r == FirstCover(prefixes, i, 0)
  {
    var p := prefixes[i];
    for j := 0 to |prefixes|
      invariant FirstCover(prefixes, i, j) == FirstCover(prefixes, i, 0)
    {
      var q := prefixes[j];
      if i == j || p.qualifier != q.qualifier || q.prefix.bits > p.prefix.bits || !Inside(q.prefix, First(p.prefix)) {
        continue;
      }
      if q.prefix == p.prefix && j > i {
        continue;
      }
      return Some(j);
    }
    return None;
  }

  method RedundantIPs(ip: IPParser, terms: seq<Term>, domain: string) returns (out: seq<P.Problem>)
    ensures out == RedundantProblems(SpfPrefixesOf(ip, terms), domain, 0)
  {
    var prefixes := SpfPrefixes(ip, terms);
    out := [];
    for i := 0 to |prefixes|
      invariant out + RedundantProblems(prefixes, domain, i) == RedundantProblems(prefixes, domain, 0)
    {
      var j := FindCover(prefixes, i);
      ReportedStep(prefixes, domain, i);
      if j.Some? {
        out := out + [P.Redundant(prefixes[i].text, prefixes[j.value].text, domain)];
      }
    }
  }

  // ------------------------------------------------- what the report means

  /** All addresses of `i` are those of `j`, which has its qualifier; of two with the same
      addresses, `j` is the earlier one. */
  ghost predicate Subsumes(ms: Mechanisms, j: nat, i: nat)
    requires i < |ms| && j < |ms|
  {
    && j != i
    && ms[j].qualifier == ms[i].qualifier
    && Within(ms[i].prefix, ms[j].prefix)
    && (Within(ms[j].prefix, ms[i].prefix) ==> j < i)
  }

  /** A mechanism is named exactly when all its addresses are those of another one with its
      qualifier; of two with the same addresses, exactly when the other comes first. */
  lemma RedundantMeansSubsumed(ms: Mechanisms, i: nat)
    requires i < |ms|
    ensures Redundant(ms, i) <==> exists j :: 0 <= j < |ms| && Subsumes(ms, j, i)
  {
    forall j | 0 <= j < |ms|
      ensures Covers(ms, j, i) <==> Subsumes(ms, j, i)
    {
      CoversMeansSubsumes(ms, j, i);
    }
  }

  lemma CoversMeansSubsumes(ms: Mechanisms, j: nat, i: nat)
    requires i < |ms| && j < |ms|
    ensures Covers(ms, j, i) <==> Subsumes(ms, j, i)
  {
    var p, q := ms[i].prefix, ms[j].prefix;
    SameAddressesSamePrefix(p, q);
    if Holds(q, p) {
      HoldsImpliesWithin(q, p);
    }
    if Within(p, q) {
      WithinImpliesHolds(p, q);
    }
  }

  /** The mechanisms left when every redundant one from `i` on is deleted. */
  function KeptFrom(ms: Mechanisms, i: nat): Mechanisms
    requires i <= |ms|
    decreases |ms| - i
  {
    if i == |ms| then []
    else if Redundant(ms, i) then KeptFrom(ms, i + 1)
    else [ms[i]] + KeptFrom(ms, i + 1)
  }

  function Kept(ms: Mechanisms): Mechanisms {
    KeptFrom(ms, 0)
  }

  /** Where the redundant mechanisms from `i` on stand. */
  function RedundantFrom(ms: Mechanisms, i: nat): (rs: seq<nat>)
    requires i <= |ms|
    ensures forall k :: 0 <= k < |rs| ==> i <= rs[k] < |ms|
    decreases |ms| - i
  {
    if i == |ms| then []
    else if Redundant(ms, i) then [i] + RedundantFrom(ms, i + 1)
    else RedundantFrom(ms, i + 1)
  }

  /** A problem names the mechanism it stands for and its first cover. */
  predicate Names(p: P.Problem, ms: Mechanisms, domain: string, r: nat)
    requires r < |ms|
  {
    var j := FirstCover(ms, r, 0);
    j.Some? && p == P.Redundant(ms[r].text, ms[j.value].text, domain)
  }

  /** What is reported is exactly what the deletion drops: one problem for each redundant
      mechanism, in order, and everything else is kept. */
  lemma ReportedIsDropped(ms: Mechanisms, domain: string, i: nat)
    requires i <= |ms|
    ensures |RedundantProblems(ms, domain, i)| == |RedundantFrom(ms, i)| == |ms| - i - |KeptFrom(ms, i)|
    ensures forall k :: 0 <= k < |RedundantFrom(ms, i)| ==>
      Names(RedundantProblems(ms, domain, i)[k], ms, domain, RedundantFrom(ms, i)[k])
    ensures forall r :: i <= r < |ms| ==> (r in RedundantFrom(ms, i) <==> Redundant(ms, r))
  {
    ReportedAsNamed(ms, domain, i);
    DroppedAndKept(ms, i);
    forall r | i <= r < |ms| ensures r in RedundantFrom(ms, i) <==> Redundant(ms, r) {
      DroppedIsRedundant(ms, i, r);
    }
  }

  lemma ReportedStep(ms: Mechanisms, domain: string, i: nat)
    requires i < |ms|
    ensures Redundant(ms, i) <==> FirstCover(ms, i, 0).Some?
    ensures var rest := RedundantProblems(ms, domain, i + 1);
      RedundantProblems(ms, domain, i) ==
        match FirstCover(ms, i, 0)
        case None => rest
        case Some(j) => [P.Redundant(ms[i].text, ms[j].text, domain)] + rest
  {
  }

  lemma {:induction false} ReportedAsNamed(ms: Mechanisms, domain: string, i: nat)
    requires i <= |ms|
    ensures |RedundantProblems(ms, domain, i)| == |RedundantFrom(ms, i)|
    ensures forall k :: 0 <= k < |RedundantFrom(ms, i)| ==>
      Names(RedundantProblems(ms, domain, i)[k], ms, domain, RedundantFrom(ms, i)[k])
    decreases |ms| - i
  {
    if i < |ms| {
      ReportedStep(ms, domain, i);
      ReportedAsNamed(ms, domain, i + 1);
    }
  }

  lemma {:induction false} DroppedAndKept(ms: Mechanisms, i: nat)
    requires i <= |ms|
    ensures |RedundantFrom(ms, i)| + |KeptFrom(ms, i)| == |ms| - i
    decreases |ms| - i
  {
    if i < |ms| {
      DroppedAndKept(ms, i + 1);
    }
  }

  lemma {:induction false} DroppedIsRedundant(ms: Mechanisms, i: nat, r: nat)
    requires i <= r < |ms|
    ensures r in RedundantFrom(ms, i) <==> Redundant(ms, r)
    decreases r - i
  {
    var rest := RedundantFrom(ms, i + 1);
    if i < r {
      DroppedIsRedundant(ms, i + 1, r);
      assert r in [i] + rest <==> r in rest;
    } else {
      assert r in [i] + rest && r !in rest;
    }
  }

  predicate Covered(ms: Mechanisms, qualifier: string, a: Address) {
    exists i :: 0 <= i < |ms| && ms[i].qualifier == qualifier && Inside(ms[i].prefix, a)
  }

  lemma {:induction false} KeptFromIndex(ms: Mechanisms, i: nat, k: nat) returns (r: nat)
    requires i <= |ms| && k < |KeptFrom(ms, i)|
    ensures i + k <= r < |ms| && !Redundant(ms, r) && KeptFrom(ms, i)[k] == ms[r]
    ensures KeptFrom(ms, i)[k..] == KeptFrom(ms, r)
    decreases |ms| - i
  {
    if Redundant(ms, i) {
      r := KeptFromIndex(ms, i + 1, k);
    } else if k == 0 {
      r := i;
    } else {
      r := KeptFromIndex(ms, i + 1, k - 1);
      assert KeptFrom(ms, i)[k..] == KeptFrom(ms, i + 1)[k - 1..];
    }
  }

  lemma {:induction false} KeptHolds(ms: Mechanisms, i: nat, r: nat) returns (k: nat)
    requires i <= r < |ms| && !Redundant(ms, r)
    ensures k < |KeptFrom(ms, i)| && KeptFrom(ms, i)[k] == ms[r]
    decreases r - i
  {
    if i == r {
      k := 0;
    } else {
      k := KeptHolds(ms, i + 1, r);
      if !Redundant(ms, i) {
        k := k + 1;
      }
    }
  }

  /** Following covers ends at a mechanism that is kept: each step shortens the prefix or
      goes to an earlier copy. */
  lemma {:induction false} CoverSurvives(ms: Mechanisms, i: nat) returns (r: nat)
    requires i < |ms|
    ensures r < |ms| && !Redundant(ms, r)
    ensures ms[r].qualifier == ms[i].qualifier && Within(ms[i].prefix, ms[r].prefix)
    decreases ms[i].prefix.bits, i
  {
    if !Redundant(ms, i) {
      r := i;
    } else {
      var j :| 0 <= j < |ms| && Covers(ms, j, i);
      CoversMeansSubsumes(ms, j, i);
      if ms[j].prefix.bits == ms[i].prefix.bits {
        SameLengthSamePrefix(ms[j].prefix, ms[i].prefix);
      }
      r := CoverSurvives(ms, j);
    }
  }

  lemma SameLengthSamePrefix(q: Prefix, p: Prefix)
    requires IsMasked(p) && IsMasked(q) && q.bits == p.bits && Holds(q, p)
    ensures q == p
  {
  }

  predicate TermCovers(ip: IPParser, t: Term, qualifier: string, a: Address) {
    (if t.qualifier == "" then "+" else t.qualifier) == qualifier && TermHolds(ip, t, a)
  }

  predicate CoversAt(m: Mechanism, qualifier: string, a: Address) {
    m.qualifier == qualifier && Inside(m.prefix, a)
  }

  lemma CoversAsItsTerm(ip: IPParser, m: Mechanism, t: Term, qualifier: string, a: Address)
    requires StandsFor(ip, m, t)
    ensures CoversAt(m, qualifier, a) <==> TermCovers(ip, t, qualifier, a)
  {
  }

  /** An address is covered under a qualifier exactly when some term with that qualifier holds
      it. */
  lemma CoveredByTerms(ip: IPParser, terms: seq<Term>, qualifier: string, a: Address)
    ensures Covered(SpfPrefixesOf(ip, terms), qualifier, a) <==>
      exists t :: t in terms && TermCovers(ip, t, qualifier, a)
  {
    PrefixesStandForTerms(ip, terms);
    CoveredByThese(ip, SpfPrefixesOf(ip, terms), Naming(ip, terms), qualifier, a);
  }

  lemma CoveredByThese(ip: IPParser, ms: Mechanisms, ts: seq<Term>, qualifier: string, a: Address)
    requires StandForAll(ip, ms, ts)
    ensures Covered(ms, qualifier, a) <==> exists t :: t in ts && TermCovers(ip, t, qualifier, a)
  {
    forall k | 0 <= k < |ms| ensures CoversAt(ms[k], qualifier, a) <==> TermCovers(ip, ts[k], qualifier, a) {
      assert StandsFor(ip, ms[k], ts[k]);
      CoversAsItsTerm(ip, ms[k], ts[k], qualifier, a);
    }
    if Covered(ms, qualifier, a) {
      var k :| 0 <= k < |ms| && ms[k].qualifier == qualifier && Inside(ms[k].prefix, a);
      assert CoversAt(ms[k], qualifier, a);
      assert ts[k] in ts;
    }
    if t :| t in ts && TermCovers(ip, t, qualifier, a) {
      var k :| 0 <= k < |ts| && ts[k] == t;
      assert CoversAt(ms[k], qualifier, a);
    }
  }

  /** Deleting what redundantIPs names changes no sender's result: per qualifier, the same
      addresses stay covered. */
  lemma DeletionKeepsCoverage(ms: Mechanisms, qualifier: string, a: Address)
    ensures Covered(Kept(ms), qualifier, a) <==> Covered(ms, qualifier, a)
  {
    var kept := Kept(ms);
    if Covered(kept, qualifier, a) {
      var k :| 0 <= k < |kept| && kept[k].qualifier == qualifier && Inside(kept[k].prefix, a);
      var r := KeptFromIndex(ms, 0, k);
    }
    if Covered(ms, qualifier, a) {
      var i :| 0 <= i < |ms| && ms[i].qualifier == qualifier && Inside(ms[i].prefix, a);
      var r := CoverSurvives(ms, i);
      var k := KeptHolds(ms, 0, r);
    }
  }

  /** After the deletion no prefix lies inside another of its qualifier, not even a copy. */
  lemma DeletionLeavesNoneInside(ms: Mechanisms, k: nat, l: nat)
    requires k < |Kept(ms)| && l < |Kept(ms)| && k != l
    requires Kept(ms)[k].qualifier == Kept(ms)[l].qualifier
    ensures !Within(Kept(ms)[k].prefix, Kept(ms)[l].prefix)
  {
    var r := KeptFromIndex(ms, 0, k);
    var s := KeptFromIndex(ms, 0, l);
    assert |Kept(ms)[k..]| != |Kept(ms)[l..]|;
    CoversMeansSubsumes(ms, s, r);
    CoversMeansSubsumes(ms, r, s);
  }
}
