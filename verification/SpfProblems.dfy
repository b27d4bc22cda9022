/** The problems the SPF evaluator of mail.go reports, as text, and the table of report.go
    that turns the texts back into codes. */
module SpfProblems {
  import opened Text

  const LOOKUP_LIMIT := 10
  const VOID_LIMIT := 2
  const ANSWER_LIMIT := 512
  const ANSWER_WARN := 450
  const EDNS_BUFFER := 1232

  datatype Problem =
    | MultipleRecords
    | ApexOver(octets: nat)
    | ApexNear(octets: nat)
    | IncludeOver(target: string, octets: nat)
    | LookupLimit(count: nat)
    | VoidLimit(count: nat)
    | NoAll
    | Ptr
    | UnknownMechanism(name: string, domain: string)
    | PassAll(via: string)
    | NeutralAll(via: string)
    | InvalidName(target: string, message: string)
    | Loop(path: seq<string>, target: string)
    | Unchecked(target: string)
    | Missing(target: string)
    | Redundant(mechanism: string, cover: string, domain: string)

  // ------------------------------------------------------------------- texts

  function Words(ws: seq<string>): string {
    Join(ws, ' ')
  }

  const EDNS_NOTE := ["also", "exceeds", "the", Itoa(EDNS_BUFFER) + "-octet", "EDNS", "buffer", "resolvers",
                      "commonly", "use,", "so", "nearly", "every", "lookup", "needs", "TCP"]

  /** The last word of a size problem, with the clause about the EDNS buffer when that is
      exceeded too. */
  function EdnsNote(word: string, octets: nat): seq<string> {
    if octets <= EDNS_BUFFER then [word] else [word + ";", "it"] + EDNS_NOTE
  }

  /** The clause is there exactly for an answer over 1232 octets. */
  lemma EdnsNoteWhen(word: string, octets: nat)
    ensures EdnsNote(word, octets) == [word] <==> octets <= 1232
  {
    assert octets > 1232 ==> EdnsNote(word, octets)[0] == word + ";";
    assert word + ";" != word;
  }

  const SIZE_RULE := "§3.4)"  // what closes "(RFC 7208 §3.4)"

  /** The end of the problem that the apex answer is too large. */
  function RetryOverTcp(octets: nat): (ws: seq<string>)
    ensures ws != []
  {
    [Itoa(ANSWER_LIMIT) + "-octet", "UDP", "limit", "(RFC", "7208", "§3.4):",
     "resolvers", "without", "EDNS", "get", "a", "truncated", "reply", "and", "must", "retry", "over"] +
       EdnsNote("TCP", octets)
  }

  /** The end of the problem that the apex answer is nearly too large. */
  function OneMoreRecord(): seq<string> {
    [Itoa(ANSWER_LIMIT) + "-octet", "UDP", "limit", "(RFC", "7208", "§3.4):", "one", "more", "TXT", "record", "may",
      "push", "it", "over"]
  }

  /** The end of a "no protection" problem: the redirect or include that led there, if any. */
  function Reached(via: string): seq<string> {
    if via == "" then ["protection)"] else ["protection),", "reached", "through", via]
  }

  /** The domains of an include loop, the arrows between them. */
  function Arrows(path: seq<string>): seq<string> {
    if path == [] then [] else [path[0], "->"] + Arrows(path[1..])
  }

  /** A problem as its words; one space stands between two of them. */
  function ProblemWords(p: Problem): seq<string> {
    match p
    case MultipleRecords => ["multiple", "SPF", "records", "(permerror:", "SPF", "fails", "entirely)"]
    case ApexOver(n) =>
      ["apex", "TXT", "answer", "is", Itoa(n), "octets,", "over", "the"] + RetryOverTcp(n)
    case ApexNear(n) =>
      ["apex", "TXT", "answer", "is", Itoa(n), "octets,", "close", "to", "the"] + OneMoreRecord()
    case IncludeOver(t, n) =>
      ["include:" + t, "TXT", "answer", "is", Itoa(n), "octets,", "over", "the", Itoa(ANSWER_LIMIT) + "-octet",
        "UDP", "limit", "(RFC", "7208"] + EdnsNote(SIZE_RULE, n)
    case LookupLimit(n) =>
      [Itoa(n), "DNS", "lookups", "exceed", "the", "limit", "of", Itoa(LOOKUP_LIMIT), "(permerror:", "SPF", "fails",
        "entirely)"]
    case VoidLimit(n) => [Itoa(n), "void", "lookups", "exceed", "the", "limit", "of", Itoa(VOID_LIMIT)]
    case NoAll => ["record", "has", "no", "all", "mechanism", "or", "redirect", "(default", "neutral)"]
    case Ptr => ["ptr", "mechanism", "is", "deprecated", "(RFC", "7208", "§5.5)"]
    case UnknownMechanism(name, domain) => ["unknown", "mechanism", name, "in", domain]
    case PassAll(via) => ["+all", "authorises", "every", "sender", "(no"] + Reached(via)
    case NeutralAll(via) => ["?all", "is", "neutral", "(no"] + Reached(via)
    case InvalidName(t, message) => ["include:" + t, "is", "not", "a", "valid", "domain", "name", "(" + message + ")"]
    case Loop(path, t) => ["include", "loop"] + Arrows(path) + [t, "(permerror:", "SPF", "fails", "entirely)"]
    case Unchecked(t) => ["include:" + t, "could", "not", "be", "checked:", "its", "TXT", "lookup", "did", "not",
      "complete"]
    case Missing(t) => ["include:" + t, "has", "no", "SPF", "record"]
    case Redundant(m, c, domain) => [m, "is", "already", "covered", "by", c, "in", domain]
  }

  function Render(p: Problem): string {
    Words(ProblemWords(p))
  }

  // ------------------------------------------------------------ the classifier

  datatype Severity = Fail | Warn | Info

  datatype Class = Class(prefix: string, substr: string, code: string, sev: Severity)

  const CLASSES: seq<Class> := [
    Class("multiple SPF records", "", "spf_multiple", Fail),
    Class("", "DNS lookups exceed the limit", "spf_lookup_limit", Fail),
    Class("", "void lookups exceed the limit", "spf_void_limit", Warn),
    Class("record has no all mechanism", "", "spf_no_all", Warn),
    Class("ptr mechanism is deprecated", "", "spf_ptr_deprecated", Warn),
    Class("unknown mechanism", "", "spf_unknown_mechanism", Fail),
    Class("+all", "", "spf_pass_all", Fail),
    Class("?all", "", "spf_neutral_all", Warn),
    Class("apex TXT answer is", ", over the ", "spf_txt_over_udp_limit", Info),
    Class("apex TXT answer is", "", "spf_txt_near_udp_limit", Info),
    Class("include:", " TXT answer is ", "spf_include_txt_over_udp_limit", Info),
    Class("include:", " is not a valid domain name", "spf_include_invalid", Warn),
    Class("include:", " has no SPF record", "spf_include_missing", Warn),
    Class("include:", " could not be checked", "spf_include_unchecked", Warn),
    Class("include loop ", "", "spf_include_loop", Fail),
    Class("", " is already covered by ", "spf_redundant_ip", Info)
  ]

  predicate Matches(p: string, c: Class) {
    HasPrefix(p, c.prefix) && Contains(p, c.substr)
  }

  /** The first class from `k` on that matches, or |CLASSES|. */
  function FirstMatch(p: string, k: nat): (r: nat)
    requires k <= |CLASSES|
    ensures k <= r <= |CLASSES|
    ensures r < |CLASSES| ==> Matches(p, CLASSES[r])
    ensures forall j :: k <= j < r ==> !Matches(p, CLASSES[j])
    decreases |CLASSES| - k
  {
    if k == |CLASSES| || Matches(p, CLASSES[k]) then k else FirstMatch(p, k + 1)
  }

  function Classify(p: string): (string, Severity) {
    var k := FirstMatch(p, 0);
    if k < |CLASSES| then (CLASSES[k].code, CLASSES[k].sev)
    else if Contains(p, "permerror") then ("spf_invalid", Fail)
    else ("spf_problem", Warn)
  }

  method SpfProblemClass(p: string) returns (code: string, sev: Severity)
    ensures (code, sev) == Classify(p)
  {
    for k := 0 to |CLASSES|
      invariant FirstMatch(p, k) == FirstMatch(p, 0)
    {
      if HasPrefix(p, CLASSES[k].prefix) && Contains(p, CLASSES[k].substr) {
        return CLASSES[k].code, CLASSES[k].sev;
      }
    }
    if Contains(p, "permerror") {
      return "spf_invalid", Fail;
    }
    return "spf_problem", Warn;
  }

  /** The class meant for a problem. */
  function Meant(p: Problem): (k: nat)
    ensures k < |CLASSES|
  {
    match p
    case MultipleRecords => 0
    case LookupLimit(_) => 1
    case VoidLimit(_) => 2
    case NoAll => 3
    case Ptr => 4
    case UnknownMechanism(_, _) => 5
    case PassAll(_) => 6
    case NeutralAll(_) => 7
    case ApexOver(_) => 8
    case ApexNear(_) => 9
    case IncludeOver(_, _) => 10
    case InvalidName(_, _) => 11
    case Missing(_) => 12
    case Unchecked(_) => 13
    case Loop(_, _) => 14
    case Redundant(_, _, _) => 15
  }

  predicate OneWord(s: string) {
    ' ' !in s
  }

  /** The phrases of an error message that would be taken for another problem. */
  predicate Misleading(message: string) {
    || Contains(message, "DNS lookups exceed the limit")
    || Contains(message, "void lookups exceed the limit")
    || Contains(message, " TXT answer is ")
  }

  /** Where an invalid name is filed: that is up to the name parser's message. */
  function InvalidClass(message: string): (k: nat)
    ensures k < |CLASSES|
    ensures k == 11 <==> !Misleading(message)
  {
    if Contains(message, "DNS lookups exceed the limit") then 1
    else if Contains(message, "void lookups exceed the limit") then 2
    else if Contains(message, " TXT answer is ") then 10
    else 11
  }

  /** The class a problem is filed under. */
  function FiledUnder(p: Problem): (k: nat)
    ensures k < |CLASSES|
  {
    if p.InvalidName? then InvalidClass(p.message) else Meant(p)
  }

  /** What the evaluator's problems hold: names without spaces, an ip4/ip6 mechanism, and a
      message of the name parser. */
  predicate Emittable(p: Problem) {
    match p
    case UnknownMechanism(name, domain) => OneWord(name) && OneWord(domain)
    case PassAll(via) => OneWord(via)
    case NeutralAll(via) => OneWord(via)
    case InvalidName(t, _) => OneWord(t)
    case IncludeOver(t, _) => OneWord(t)
    case Loop(path, t) => (forall i :: 0 <= i < |path| ==> OneWord(path[i])) && OneWord(t)
    case Unchecked(t) => OneWord(t)
    case Missing(t) => OneWord(t)
    case Redundant(m, c, domain) => HasPrefix(m, "ip") && OneWord(m) && OneWord(c) && OneWord(domain)
    case _ => true
  }
}
