/** Rendering a problem and classifying the text gives back the problem's own class. */
module SpfClassification {
  import opened Text
  import opened SpfProblems

  // ------------------------------------------------- phrases and their words

  predicate OneWords(ws: seq<string>) {
    forall i :: 0 <= i < |ws| ==> OneWord(ws[i])
  }

  lemma WordsCons(w: string, ws: seq<string>)
    requires ws != []
    ensures Words([w] + ws) == w + " " + Words(ws)
  {
    assert ([w] + ws)[1..] == ws;
  }

  lemma {:induction false} WordsAppend(xs: seq<string>, ys: seq<string>)
    requires xs != [] && ys != []
    ensures Words(xs + ys) == Words(xs) + " " + Words(ys)
  {
    assert xs + ys == [xs[0]] + (xs[1..] + ys);
    WordsCons(xs[0], xs[1..] + ys);
    if |xs| > 1 {
      WordsAppend(xs[1..], ys);
    } else {
      assert xs[1..] + ys == ys;
    }
  }

  /** A text that starts with a word and a space starts with that very word. */
  lemma PrefixWord(ws: seq<string>, a: string, z: string)
    requires ws != [] && OneWords(ws) && OneWord(a)
    requires HasPrefix(Words(ws), a + " " + z)
    ensures |ws| >= 2 && ws[0] == a && HasPrefix(Words(ws[1..]), z)
  {
    var t, p := Words(ws), a + " " + z;
    var after := t[|p|..];
    assert t == a + [' '] + (z + after);
    FirstIndex(a, ' ', z + after);
    assert OneWord(ws[0]);
    if |ws| > 1 {
      var rest := Words(ws[1..]);
      assert t == ws[0] + [' '] + rest;
      FirstIndex(ws[0], ' ', rest);
      assert ws[0] == t[..|a|] == a;
      assert rest == t[|a| + 1..] == z + after;
    }
  }

  /** A pattern that starts with a space cannot start inside a word. */
  lemma LeadingSpace(x: string, y: string, p: string)
    requires OneWord(x) && p != "" && p[0] == ' ' && Contains(x + " " + y, p)
    ensures HasPrefix(y, p[1..]) || Contains(y, p)
  {
    var t := x + " " + y;
    var k :| 0 <= k <= |t| && OccursAt(t, p, k);
    assert t[k] == t[k..k + |p|][0] == ' ';
    assert forall j :: 0 <= j < |x| ==> t[j] == x[j] && x[j] in x;
    if k == |x| {
      assert t[|x| + 1..] == y;
      assert t[k + 1..k + |p|] == t[|x| + 1..][..|p| - 1];
      assert t[k..k + |p|][1..] == t[k + 1..k + |p|];
    } else {
      OccursSides(x + " ", y, p, k);
    }
  }

  /** Words told apart by their length or first letter. */
  predicate Unlike(w: string, v: string) {
    |w| != |v| || (|w| > 0 && w[0] != v[0])
  }

  ghost predicate NoPair(ws: seq<string>, a: string, b: string) {
    forall i :: 0 <= i < |ws| - 1 ==> Unlike(ws[i], a) || Unlike(ws[i + 1], b)
  }

  /** A text none of whose neighbouring words are `a` and `b` does not hold " a b ". */
  lemma {:induction false} PairAbsent(ws: seq<string>, a: string, b: string)
    requires ws != [] && OneWords(ws) && OneWord(a) && OneWord(b) && NoPair(ws, a, b)
    ensures !Contains(Words(ws), " " + a + " " + b + " ")
  {
    var t, p := Words(ws), " " + a + " " + b + " ";
    assert OneWord(ws[0]);
    if Contains(t, p) {
      assert p[0] == ' ';
      if |ws| == 1 {
        ContainsChar(t, p, ' ');
      } else {
        var rest := ws[1..];
        LeadingSpace(ws[0], Words(rest), p);
        forall i | 0 <= i < |rest| - 1 ensures Unlike(rest[i], a) || Unlike(rest[i + 1], b) {
          assert rest[i] == ws[i + 1] && rest[i + 1] == ws[i + 1 + 1];
        }
        if Contains(Words(rest), p) {
          PairAbsent(rest, a, b);
        } else {
          assert p[1..] == a + " " + (b + " " + "");
          assert |rest| >= 2 ==> Unlike(rest[0], a) || Unlike(rest[1], b);
          PrefixWord(rest, a, b + " " + "");
          PrefixWord(rest[1..], b, "");
        }
      }
    }
  }

  // ------------------------------------------------------- choosing a class

  lemma Decide(p: string, k: nat)
    requires k < |CLASSES| && Matches(p, CLASSES[k])
    requires forall j :: 0 <= j < k ==> !Matches(p, CLASSES[j])
    ensures Classify(p) == (CLASSES[k].code, CLASSES[k].sev)
  {
    assert FirstMatch(p, 0) == k;
  }

  lemma LookupLimitPhrase()
    ensures Contains("DNS lookups exceed the limit", " exceed the ")
  {
    var s, p := "DNS lookups exceed the limit", " exceed the ";
    assert s[11..23] == p;
    OccursContains(s, p, 11);
  }

  lemma VoidLimitPhrase()
    ensures Contains("void lookups exceed the limit", " exceed the ")
  {
    var s, p := "void lookups exceed the limit", " exceed the ";
    assert s[12..24] == p;
    OccursContains(s, p, 12);
  }

  /** The two limit phrases both hold " exceed the ". */
  lemma NotALimit(p: string)
    requires !Contains(p, " exceed the ")
    ensures !Matches(p, CLASSES[1]) && !Matches(p, CLASSES[2])
  {
    LookupLimitPhrase();
    VoidLimitPhrase();
    if Contains(p, "DNS lookups exceed the limit") {
      ContainsTransitive(p, "DNS lookups exceed the limit", " exceed the ");
    }
    if Contains(p, "void lookups exceed the limit") {
      ContainsTransitive(p, "void lookups exceed the limit", " exceed the ");
    }
  }

  /** Classes with a prefix are ruled out by a different first letter. */
  lemma NotByInitial(p: string, k: nat)
    requires p != "" && k < |CLASSES| && !Contains(p, " exceed the ")
    requires forall j :: 0 <= j < k && j != 1 && j != 2 ==> CLASSES[j].prefix != "" && CLASSES[j].prefix[0] != p[0]
    ensures forall j :: 0 <= j < k ==> !Matches(p, CLASSES[j])
  {
    NotALimit(p);
    forall j | 0 <= j < k ensures !Matches(p, CLASSES[j]) {
      if j != 1 && j != 2 {
        PrefixAt(p, CLASSES[j].prefix, 0);
      }
    }
  }

  // ---------------------------------------------------- spelling out phrases

  lemma Spelled3(ws: seq<string>)
    requires |ws| == 3
    ensures Words(ws) == ws[0] + (" " + (ws[1] + (" " + ws[2])))
  {
    WordsCons(ws[1], [ws[2]]);
    WordsCons(ws[0], [ws[1]] + [ws[2]]);
    assert ws == [ws[0]] + ([ws[1]] + [ws[2]]);
  }

  lemma Spelled4(ws: seq<string>)
    requires |ws| == 4
    ensures Words(ws) == ws[0] + (" " + (ws[1] + (" " + (ws[2] + (" " + ws[3])))))
  {
    Spelled3(ws[1..]);
    WordsCons(ws[0], ws[1..]);
    assert ws == [ws[0]] + ws[1..];
  }

  lemma Spelled5(ws: seq<string>)
    requires |ws| == 5
    ensures Words(ws) == ws[0] + (" " + (ws[1] + (" " + (ws[2] + (" " + (ws[3] + (" " + ws[4])))))))
  {
    Spelled4(ws[1..]);
    WordsCons(ws[0], ws[1..]);
    assert ws == [ws[0]] + ws[1..];
  }

  lemma SpellMultiple(ws: seq<string>)
    requires ws == ["multiple", "SPF", "records"]
    ensures Words(ws) == "multiple SPF records"
  {
    Spelled3(ws);
  }

  lemma SpellNoAll(ws: seq<string>)
    requires ws == ["record", "has", "no", "all", "mechanism"]
    ensures Words(ws) == "record has no all mechanism"
  {
    Spelled5(ws);
  }

  lemma SpellPtr(ws: seq<string>)
    requires ws == ["ptr", "mechanism", "is", "deprecated"]
    ensures Words(ws) == "ptr mechanism is deprecated"
  {
    Spelled4(ws);
  }

  lemma SpellApex(ws: seq<string>)
    requires ws == ["apex", "TXT", "answer", "is"]
    ensures Words(ws) == "apex TXT answer is"
  {
    Spelled4(ws);
  }

  lemma SpellLookupLimit(ws: seq<string>)
    requires ws == ["DNS", "lookups", "exceed", "the", "limit"]
    ensures Words(ws) == "DNS lookups exceed the limit"
  {
    Spelled5(ws);
  }

  lemma SpellVoidLimit(ws: seq<string>)
    requires ws == ["void", "lookups", "exceed", "the", "limit"]
    ensures Words(ws) == "void lookups exceed the limit"
  {
    Spelled5(ws);
  }

  lemma SpellAnswer(ws: seq<string>)
    requires ws == ["TXT", "answer", "is"]
    ensures " " + Words(ws) + " " == " TXT answer is "
  {
    Spelled3(ws);
  }

  lemma SpellMissing(ws: seq<string>)
    requires ws == ["has", "no", "SPF", "record"]
    ensures " " + Words(ws) == " has no SPF record"
  {
    Spelled4(ws);
  }

  lemma SpellUnchecked(ws: seq<string>)
    requires ws == ["could", "not", "be"]
    ensures " " + Words(ws) + " checked" == " could not be checked"
  {
    Spelled3(ws);
  }

  lemma SpellCovered(ws: seq<string>)
    requires ws == ["is", "already", "covered", "by"]
    ensures " " + Words(ws) + " " == " is already covered by "
  {
    Spelled4(ws);
  }

  lemma SpellInvalid(ws: seq<string>)
    requires ws == ["is", "not", "a", "valid", "domain", "name"]
    ensures " " + Words(ws) == " is not a valid domain name"
  {
    Spelled5(ws[1..]);
    WordsCons("is", ws[1..]);
  }

  // ------------------------------------------------------ problem by problem

  lemma WordsPrefix(xs: seq<string>, ys: seq<string>)
    requires xs != [] && ys != []
    ensures HasPrefix(Words(xs + ys), Words(xs))
  {
    WordsAppend(xs, ys);
  }

  lemma WordsInner(xs: seq<string>, ms: seq<string>, ys: seq<string>)
    requires xs != [] && ms != [] && ys != []
    ensures Contains(Words(xs + ms + ys), " " + Words(ms) + " ")
  {
    WordsAppend(xs + ms, ys);
    WordsAppend(xs, ms);
    var t := Words(xs + ms + ys);
    assert t == Words(xs) + (" " + Words(ms) + " ") + Words(ys);
    ContainsInner(Words(xs), " " + Words(ms) + " ", Words(ys));
  }

  lemma WordsTail(xs: seq<string>, ms: seq<string>)
    requires xs != [] && ms != []
    ensures Contains(Words(xs + ms), " " + Words(ms))
  {
    WordsAppend(xs, ms);
    assert Words(xs + ms) == Words(xs) + (" " + Words(ms)) + "";
    ContainsInner(Words(xs), " " + Words(ms), "");
  }

  lemma EmptyContained(p: string)
    ensures Contains(p, "")
  {
    assert p[0..0] == "";
    OccursContains(p, "", 0);
  }

  // ---------------------------------------------- texts without a limit phrase

  /** Words, none of them holding a space, without "exceed" in front of "the". */
  ghost predicate Plain(ws: seq<string>) {
    OneWords(ws) && NoPair(ws, "exceed", "the")
  }

  lemma PlainConcat(xs: seq<string>, ys: seq<string>)
    requires Plain(xs) && Plain(ys)
    requires xs != [] && ys != [] ==> Unlike(xs[|xs| - 1], "exceed") || Unlike(ys[0], "the")
    ensures Plain(xs + ys)
  {
    var ws := xs + ys;
    forall i | 0 <= i < |ws| - 1 ensures Unlike(ws[i], "exceed") || Unlike(ws[i + 1], "the") {
      if i >= |xs| {
        assert ws[i] == ys[i - |xs|] && ws[i + 1] == ys[i - |xs| + 1];
      } else if i + 1 < |xs| {
        assert ws[i] == xs[i] && ws[i + 1] == xs[i + 1];
      }
    }
  }

  lemma NoLimitWords(ws: seq<string>)
    requires ws != [] && Plain(ws)
    ensures !Contains(Words(ws), " exceed the ")
  {
    PairAbsent(ws, "exceed", "the");
    assert " " + "exceed" + " " + "the" + " " == " exceed the ";
  }

  lemma NumberWord(n: nat)
    ensures OneWord(Itoa(n)) && OneWord(Itoa(n) + "-octet") && Unlike(Itoa(n), "the") && Unlike(Itoa(n), "exceed")
    ensures Unlike(Itoa(n) + "-octet", "the") && Unlike(Itoa(n) + "-octet", "exceed")
  {
  }

  lemma TargetWord(t: string)
    requires OneWord(t)
    ensures OneWord("include:" + t) && Unlike("include:" + t, "exceed")
  {
  }

  lemma EdnsNotePlain(word: string, octets: nat)
    requires OneWord(word) && Unlike(word, "exceed") && Unlike(word + ";", "exceed")
    ensures Plain(EdnsNote(word, octets)) && EdnsNote(word, octets) != []
    ensures EdnsNote(word, octets)[0] == word || EdnsNote(word, octets)[0] == word + ";"
  {
    NumberWord(EDNS_BUFFER);
    assert Plain(EDNS_NOTE);
    assert Plain([word + ";", "it"]) && Plain([word]);
    PlainConcat([word + ";", "it"], EDNS_NOTE);
  }

  lemma RetryOverTcpPlain(n: nat)
    ensures Plain(RetryOverTcp(n)) && Unlike(RetryOverTcp(n)[0], "the")
  {
    var ws := [Itoa(ANSWER_LIMIT) + "-octet", "UDP", "limit", "(RFC", "7208", "§3.4):",
               "resolvers", "without", "EDNS", "get", "a", "truncated", "reply", "and", "must", "retry", "over"];
    NumberWord(ANSWER_LIMIT);
    assert Plain(ws);
    EdnsNotePlain("TCP", n);
    PlainConcat(ws, EdnsNote("TCP", n));
  }

  lemma ApexOverPlain(n: nat)
    ensures Plain(ProblemWords(ApexOver(n)))
  {
    NumberWord(n);
    RetryOverTcpPlain(n);
    assert Plain(["apex", "TXT", "answer", "is", Itoa(n), "octets,", "over", "the"]);
    PlainConcat(["apex", "TXT", "answer", "is", Itoa(n), "octets,", "over", "the"], RetryOverTcp(n));
  }

  lemma OneMoreRecordPlain()
    ensures Plain(OneMoreRecord()) && NoPair(OneMoreRecord(), "over", "the")
    ensures OneMoreRecord() != [] && Unlike(OneMoreRecord()[0], "the")
  {
    NumberWord(ANSWER_LIMIT);
  }

  lemma ApexNearPlain(n: nat)
    ensures Plain(ProblemWords(ApexNear(n)))
  {
    NumberWord(n);
    OneMoreRecordPlain();
    assert Plain(["apex", "TXT", "answer", "is", Itoa(n), "octets,", "close", "to", "the"]);
    PlainConcat(["apex", "TXT", "answer", "is", Itoa(n), "octets,", "close", "to", "the"], OneMoreRecord());
  }

  lemma MultiplePlain()
    ensures Plain(ProblemWords(MultipleRecords))
  {
  }

  lemma NoAllPlain()
    ensures Plain(ProblemWords(NoAll))
  {
  }

  lemma PtrPlain()
    ensures Plain(ProblemWords(Ptr))
  {
  }

  lemma UnknownPlain(name: string, domain: string)
    requires OneWord(name) && OneWord(domain)
    ensures Plain(ProblemWords(UnknownMechanism(name, domain)))
  {
  }

  function IncludeOverStart(t: string, n: nat): seq<string> {
    ["include:" + t, "TXT", "answer", "is", Itoa(n), "octets,", "over", "the", Itoa(ANSWER_LIMIT) + "-octet", "UDP",
      "limit", "(RFC", "7208"]
  }

  lemma IncludeOverPlain(t: string, n: nat)
    requires OneWord(t)
    ensures Plain(ProblemWords(IncludeOver(t, n)))
  {
    TargetWord(t);
    NumberWord(n);
    NumberWord(ANSWER_LIMIT);
    assert Plain(IncludeOverStart(t, n));
    EdnsNotePlain(SIZE_RULE, n);
    PlainConcat(IncludeOverStart(t, n), EdnsNote(SIZE_RULE, n));
  }

  lemma PassAllPlain(via: string)
    requires OneWord(via)
    ensures Plain(ProblemWords(PassAll(via)))
  {
    assert Plain(Reached(via));
    PlainConcat(["+all", "authorises", "every", "sender", "(no"], Reached(via));
  }

  lemma NeutralAllPlain(via: string)
    requires OneWord(via)
    ensures Plain(ProblemWords(NeutralAll(via)))
  {
    assert Plain(Reached(via));
    PlainConcat(["?all", "is", "neutral", "(no"], Reached(via));
  }

  lemma {:induction false} ArrowsPlain(path: seq<string>)
    requires forall i :: 0 <= i < |path| ==> OneWord(path[i])
    ensures Plain(Arrows(path))
    ensures path != [] ==> |Arrows(path)| >= 2 && Arrows(path)[|Arrows(path)| - 1] == "->"
  {
    if path != [] {
      var rest := Arrows(path[1..]);
      ArrowsPlain(path[1..]);
      assert Plain([path[0], "->"]);
      PlainConcat([path[0], "->"], rest);
    }
  }

  lemma LoopPlain(path: seq<string>, t: string)
    requires Emittable(Loop(path, t))
    ensures Plain(ProblemWords(Loop(path, t)))
  {
    ArrowsPlain(path);
    var arrows, start := Arrows(path), ["include", "loop"] + Arrows(path);
    assert Plain(["include", "loop"]);
    PlainConcat(["include", "loop"], arrows);
    assert Plain([t, "(permerror:", "SPF", "fails", "entirely)"]);
    assert path != [] ==> start[|start| - 1] == arrows[|arrows| - 1];
    PlainConcat(start, [t, "(permerror:", "SPF", "fails", "entirely)"]);
  }

  lemma IncludePlain(t: string)
    requires OneWord(t)
    ensures Plain(ProblemWords(Missing(t)))
    ensures Plain(InvalidHead(t) + [""])
  {
    TargetWord(t);
  }

  lemma UncheckedPlain(t: string)
    requires OneWord(t)
    ensures Plain(ProblemWords(Unchecked(t)))
  {
    TargetWord(t);
  }

  function InvalidHead(t: string): seq<string> {
    ["include:" + t, "is", "not", "a", "valid", "domain", "name"]
  }

  lemma RedundantPlain(m: string, c: string, domain: string)
    requires Emittable(Redundant(m, c, domain))
    ensures Plain(ProblemWords(Redundant(m, c, domain)))
  {
    assert m[0] == m[..2][0];
  }


  /** The classes up to 7 that have a prefix start with different letters. */
  lemma InitialsDiffer(k: nat)
    requires k <= 7 && k != 1 && k != 2
    ensures CLASSES[k].prefix != "" && CLASSES[k].substr == ""
    ensures forall j :: 0 <= j < k && j != 1 && j != 2 ==>
      CLASSES[j].prefix != "" && CLASSES[j].prefix[0] != CLASSES[k].prefix[0]
  {
  }

  /** The classes told by a prefix alone: the words `xs` spell the prefix of class `k`. */
  lemma ByPrefix(p: Problem, xs: seq<string>, ys: seq<string>, k: nat)
    requires xs != [] && ys != [] && k <= 7 && k != 1 && k != 2
    requires Words(xs) == CLASSES[k].prefix
    requires ProblemWords(p) == xs + ys && Plain(ProblemWords(p))
    ensures Classify(Render(p)) == (CLASSES[k].code, CLASSES[k].sev)
  {
    var t := Words(xs + ys);
    InitialsDiffer(k);
    NoLimitWords(xs + ys);
    WordsPrefix(xs, ys);
    EmptyContained(t);
    assert t[0] == t[..|Words(xs)|][0];
    NotByInitial(t, k);
    Decide(t, k);
  }

  lemma ClassifyMultiple()
    ensures Classify(Render(MultipleRecords)) == (CLASSES[0].code, CLASSES[0].sev)
  {
    var xs := ["multiple", "SPF", "records"];
    SpellMultiple(xs);
    MultiplePlain();
    ByPrefix(MultipleRecords, xs, ["(permerror:", "SPF", "fails", "entirely)"], 0);
  }

  lemma ClassifyNoAll()
    ensures Classify(Render(NoAll)) == (CLASSES[3].code, CLASSES[3].sev)
  {
    var xs := ["record", "has", "no", "all", "mechanism"];
    SpellNoAll(xs);
    NoAllPlain();
    ByPrefix(NoAll, xs, ["or", "redirect", "(default", "neutral)"], 3);
  }

  lemma ClassifyPtr()
    ensures Classify(Render(Ptr)) == (CLASSES[4].code, CLASSES[4].sev)
  {
    var xs := ["ptr", "mechanism", "is", "deprecated"];
    SpellPtr(xs);
    PtrPlain();
    ByPrefix(Ptr, xs, ["(RFC", "7208", "§5.5)"], 4);
  }

  lemma ClassifyUnknown(name: string, domain: string)
    requires OneWord(name) && OneWord(domain)
    ensures Classify(Render(UnknownMechanism(name, domain))) == (CLASSES[5].code, CLASSES[5].sev)
  {
    UnknownPlain(name, domain);
    ByPrefix(UnknownMechanism(name, domain), ["unknown", "mechanism"], [name, "in", domain], 5);
  }

  lemma ClassifyPassAll(via: string)
    requires OneWord(via)
    ensures Classify(Render(PassAll(via))) == (CLASSES[6].code, CLASSES[6].sev)
  {
    PassAllPlain(via);
    ByPrefix(PassAll(via), ["+all"], ["authorises", "every", "sender", "(no"] + Reached(via), 6);
  }

  lemma ClassifyNeutralAll(via: string)
    requires OneWord(via)
    ensures Classify(Render(NeutralAll(via))) == (CLASSES[7].code, CLASSES[7].sev)
  {
    NeutralAllPlain(via);
    ByPrefix(NeutralAll(via), ["?all"], ["is", "neutral", "(no"] + Reached(via), 7);
  }

  // ------------------------------------------------------- the limit problems

  /** " ms " holds ms. */
  lemma InnerContains(t: string, m: string)
    requires Contains(t, " " + m + " ")
    ensures Contains(t, m)
  {
    ContainsInner(" ", m, " ");
    ContainsTransitive(t, " " + m + " ", m);
  }

  lemma StartsWithDigit(n: nat, ys: seq<string>)
    requires ys != []
    ensures Words([Itoa(n)] + ys) != "" && '0' <= Words([Itoa(n)] + ys)[0] <= '9'
  {
    WordsCons(Itoa(n), ys);
  }

  lemma NotMultiple(t: string)
    requires t != "" && t[0] != 'm'
    ensures !Matches(t, CLASSES[0])
  {
    PrefixAt(t, "multiple SPF records", 0);
  }

  lemma HoldsLookupLimit(n: nat)
    ensures var t := Render(LookupLimit(n)); Contains(t, "DNS lookups exceed the limit") && t != "" && t[0] != 'm'
  {
    var ms := ["DNS", "lookups", "exceed", "the", "limit"];
    var ys := ["of", Itoa(LOOKUP_LIMIT), "(permerror:", "SPF", "fails", "entirely)"];
    assert ProblemWords(LookupLimit(n)) == [Itoa(n)] + ms + ys == [Itoa(n)] + (ms + ys);
    WordsInner([Itoa(n)], ms, ys);
    SpellLookupLimit(ms);
    InnerContains(Words([Itoa(n)] + ms + ys), Words(ms));
    StartsWithDigit(n, ms + ys);
  }

  lemma ClassifyLookupLimit(n: nat)
    ensures Classify(Render(LookupLimit(n))) == (CLASSES[1].code, CLASSES[1].sev)
  {
    var t := Render(LookupLimit(n));
    HoldsLookupLimit(n);
    NotMultiple(t);
    assert t[..0] == "";
    Decide(t, 1);
  }

  lemma NoCapitalD(n: nat)
    ensures 'D' !in Words([Itoa(n)] + ["void", "lookups", "exceed", "the", "limit"] + ["of", Itoa(VOID_LIMIT)])
  {
    var ms, ys := ["void", "lookups", "exceed", "the", "limit"], ["of", Itoa(VOID_LIMIT)];
    WordsAppend([Itoa(n)] + ms, ys);
    WordsAppend([Itoa(n)], ms);
    SpellVoidLimit(ms);
    WordsCons("of", [Itoa(VOID_LIMIT)]);
    assert 'D' !in "void lookups exceed the limit";
  }

  lemma HoldsVoidLimit(n: nat)
    ensures var t := Render(VoidLimit(n)); Contains(t, "void lookups exceed the limit") && t != "" && t[0] != 'm'
    ensures !Contains(Render(VoidLimit(n)), "DNS lookups exceed the limit")
  {
    var ms, ys := ["void", "lookups", "exceed", "the", "limit"], ["of", Itoa(VOID_LIMIT)];
    var t := Words([Itoa(n)] + ms + ys);
    assert ProblemWords(VoidLimit(n)) == [Itoa(n)] + ms + ys == [Itoa(n)] + (ms + ys);
    WordsInner([Itoa(n)], ms, ys);
    SpellVoidLimit(ms);
    InnerContains(t, Words(ms));
    StartsWithDigit(n, ms + ys);
    NoCapitalD(n);
    if Contains(t, "DNS lookups exceed the limit") {
      assert "DNS lookups exceed the limit"[0] == 'D';
      ContainsChar(t, "DNS lookups exceed the limit", 'D');
    }
  }

  lemma ClassifyVoidLimit(n: nat)
    ensures Classify(Render(VoidLimit(n))) == (CLASSES[2].code, CLASSES[2].sev)
  {
    var t := Render(VoidLimit(n));
    HoldsVoidLimit(n);
    NotMultiple(t);
    assert t[..0] == "";
    Decide(t, 2);
  }

  // --------------------------------------------------------- the apex answer

  lemma NotBeforeApex(t: string)
    requires HasPrefix(t, CLASSES[8].prefix) && !Contains(t, " exceed the ")
    ensures forall j :: 0 <= j < 8 ==> !Matches(t, CLASSES[j])
  {
    assert t[0] == t[..|CLASSES[8].prefix|][0] == 'a';
    InitialsUpTo8();
    NotByInitial(t, 8);
  }

  lemma InitialsUpTo8()
    ensures forall j :: 0 <= j < 8 && j != 1 && j != 2 ==> CLASSES[j].prefix != "" && CLASSES[j].prefix[0] != 'a'
  {
  }

  lemma ApexStart(n: nat, ys: seq<string>)
    requires ys != []
    ensures HasPrefix(Words(["apex", "TXT", "answer", "is"] + ys), "apex TXT answer is")
  {
    var xs := ["apex", "TXT", "answer", "is"];
    SpellApex(xs);
    WordsPrefix(xs, ys);
  }

  lemma OverThe(n: nat, ys: seq<string>)
    requires ys != []
    ensures Contains(Words(["apex", "TXT", "answer", "is", Itoa(n), "octets,"] + ["over", "the"] + ys), ", over the ")
  {
    var xs := ["apex", "TXT", "answer", "is", Itoa(n)];
    var t := Words(xs + ["octets,"] + ["over", "the"] + ys);
    WordsAppend(xs + ["octets,"] + ["over", "the"], ys);
    WordsAppend(xs + ["octets,"], ["over", "the"]);
    WordsAppend(xs, ["octets,"]);
    assert t == (Words(xs) + " octets") + ", over the " + Words(ys);
    ContainsInner(Words(xs) + " octets", ", over the ", Words(ys));
    assert xs + ["octets,"] == ["apex", "TXT", "answer", "is", Itoa(n), "octets,"];
  }

  lemma ApexOverParts(n: nat)
    ensures ProblemWords(ApexOver(n)) == ["apex", "TXT", "answer", "is", Itoa(n), "octets,"] + ["over", "the"] +
      RetryOverTcp(n)
    ensures ProblemWords(ApexOver(n)) == ["apex", "TXT", "answer", "is"] +
      ([Itoa(n), "octets,", "over", "the"] + RetryOverTcp(n))
  {
  }

  lemma ClassifyApexOver(n: nat)
    ensures Classify(Render(ApexOver(n))) == (CLASSES[8].code, CLASSES[8].sev)
  {
    var t := Render(ApexOver(n));
    ApexOverParts(n);
    ApexOverPlain(n);
    NoLimitWords(ProblemWords(ApexOver(n)));
    ApexStart(n, [Itoa(n), "octets,", "over", "the"] + RetryOverTcp(n));
    OverThe(n, RetryOverTcp(n));
    NotBeforeApex(t);
    Decide(t, 8);
  }

  lemma ApexNearNoOver(n: nat)
    ensures NoPair(ProblemWords(ApexNear(n)), "over", "the")
  {
    NumberWord(n);
    OneMoreRecordPlain();
    var xs, ys := ["apex", "TXT", "answer", "is", Itoa(n), "octets,", "close", "to", "the"], OneMoreRecord();
    assert NoPair(xs, "over", "the") && Unlike(xs[|xs| - 1], "over");
    var ws := xs + ys;
    forall i | 0 <= i < |ws| - 1 ensures Unlike(ws[i], "over") || Unlike(ws[i + 1], "the") {
      if i >= |xs| {
        assert ws[i] == ys[i - |xs|] && ws[i + 1] == ys[i - |xs| + 1];
      }
    }
  }

  lemma CommaOverThe()
    ensures Contains(", over the ", " over the ")
  {
    assert ", over the "[1..11] == " over the ";
    OccursContains(", over the ", " over the ", 1);
  }

  lemma ApexNearNotOver(n: nat)
    ensures !Contains(Render(ApexNear(n)), ", over the ")
  {
    var t := Render(ApexNear(n));
    ApexNearPlain(n);
    ApexNearNoOver(n);
    PairAbsent(ProblemWords(ApexNear(n)), "over", "the");
    assert " " + "over" + " " + "the" + " " == " over the ";
    CommaOverThe();
    if Contains(t, ", over the ") {
      ContainsTransitive(t, ", over the ", " over the ");
    }
  }

  lemma ClassifyApexNear(n: nat)
    ensures Classify(Render(ApexNear(n))) == (CLASSES[9].code, CLASSES[9].sev)
  {
    var t := Render(ApexNear(n));
    var ys := [Itoa(n), "octets,", "close", "to", "the"] + OneMoreRecord();
    assert ProblemWords(ApexNear(n)) == ["apex", "TXT", "answer", "is"] + ys;
    ApexNearPlain(n);
    NoLimitWords(ProblemWords(ApexNear(n)));
    ApexStart(n, ys);
    NotBeforeApex(t);
    ApexNearNotOver(n);
    EmptyContained(t);
    assert CLASSES[8].prefix == CLASSES[9].prefix;
    Decide(t, 9);
  }

  // ------------------------------------------------------------- the includes

  lemma IncludePrefix(t: string, ys: seq<string>)
    requires ys != []
    ensures HasPrefix(Words(["include:" + t] + ys), "include:")
  {
    WordsCons("include:" + t, ys);
  }

  lemma IncludeInner(t: string, ms: seq<string>, ys: seq<string>)
    requires ms != [] && ys != []
    ensures Contains(Words(["include:" + t] + ms + ys), " " + Words(ms) + " ")
    ensures HasPrefix(Words(["include:" + t] + (ms + ys)), "include:")
  {
    WordsInner(["include:" + t], ms, ys);
    IncludePrefix(t, ms + ys);
  }

  lemma InitialsUpTo10()
    ensures forall j :: 0 <= j < 10 && j != 1 && j != 2 ==> CLASSES[j].prefix != "" && CLASSES[j].prefix[0] != 'i'
  {
  }

  lemma NotBeforeInclude(t: string)
    requires t != "" && t[0] == 'i' && !Contains(t, " exceed the ")
    ensures forall j :: 0 <= j < 10 ==> !Matches(t, CLASSES[j])
  {
    InitialsUpTo10();
    NotByInitial(t, 10);
  }

  /** The start of an include problem's text is "include:". */
  lemma StartsInclude(t: string)
    requires HasPrefix(t, "include:")
    ensures |t| >= 8 && t[0] == 'i' && t[1] == 'n' && t[7] == ':'
  {
    var p := "include:";
    assert t[0] == t[..8][0] && t[1] == t[..8][1] && t[7] == t[..8][7];
    assert p[0] == 'i' && p[1] == 'n' && p[7] == ':';
  }

  lemma AnswerPhrase()
    ensures Contains(" TXT answer is ", " TXT answer ")
  {
    assert " TXT answer is "[0..12] == " TXT answer ";
    OccursContains(" TXT answer is ", " TXT answer ", 0);
  }

  lemma InvalidPhrase()
    ensures Contains(" is not a valid domain name", " is not ")
  {
    assert " is not a valid domain name"[0..8] == " is not ";
    OccursContains(" is not a valid domain name", " is not ", 0);
  }

  lemma MissingPhrase()
    ensures Contains(" has no SPF record", " has no ")
  {
    assert " has no SPF record"[0..8] == " has no ";
    OccursContains(" has no SPF record", " has no ", 0);
  }

  lemma NoAnswer(ws: seq<string>)
    requires ws != [] && OneWords(ws) && NoPair(ws, "TXT", "answer")
    ensures !Contains(Words(ws), " TXT answer is ")
  {
    PairAbsent(ws, "TXT", "answer");
    assert " " + "TXT" + " " + "answer" + " " == " TXT answer ";
    AnswerPhrase();
    if Contains(Words(ws), " TXT answer is ") {
      ContainsTransitive(Words(ws), " TXT answer is ", " TXT answer ");
    }
  }

  lemma NoInvalid(ws: seq<string>)
    requires ws != [] && OneWords(ws) && NoPair(ws, "is", "not")
    ensures !Contains(Words(ws), " is not a valid domain name")
  {
    PairAbsent(ws, "is", "not");
    assert " " + "is" + " " + "not" + " " == " is not ";
    InvalidPhrase();
    if Contains(Words(ws), " is not a valid domain name") {
      ContainsTransitive(Words(ws), " is not a valid domain name", " is not ");
    }
  }

  lemma NoMissing(ws: seq<string>)
    requires ws != [] && OneWords(ws) && NoPair(ws, "has", "no")
    ensures !Contains(Words(ws), " has no SPF record")
  {
    PairAbsent(ws, "has", "no");
    assert " " + "has" + " " + "no" + " " == " has no ";
    MissingPhrase();
    if Contains(Words(ws), " has no SPF record") {
      ContainsTransitive(Words(ws), " has no SPF record", " has no ");
    }
  }

  lemma IncludeOverParts(t: string, n: nat, ms: seq<string>, ys: seq<string>)
    requires ms == ["TXT", "answer", "is"] && ys == [Itoa(n), "octets,", "over", "the",
        Itoa(ANSWER_LIMIT) + "-octet", "UDP", "limit", "(RFC", "7208"] + EdnsNote(SIZE_RULE, n)
    ensures ProblemWords(IncludeOver(t, n)) == ["include:" + t] + ms + ys == ["include:" + t] + (ms + ys)
  {
  }

  lemma HoldsAnswer(t: string, n: nat)
    ensures Contains(Render(IncludeOver(t, n)), " TXT answer is ") && HasPrefix(Render(IncludeOver(t, n)), "include:")
  {
    var ms := ["TXT", "answer", "is"];
    var ys := [Itoa(n), "octets,", "over", "the", Itoa(ANSWER_LIMIT) + "-octet", "UDP", "limit", "(RFC", "7208"] +
      EdnsNote(SIZE_RULE, n);
    IncludeOverParts(t, n, ms, ys);
    IncludeInner(t, ms, ys);
    SpellAnswer(ms);
  }

  lemma ClassifyIncludeOver(t: string, n: nat)
    requires OneWord(t)
    ensures Classify(Render(IncludeOver(t, n))) == (CLASSES[10].code, CLASSES[10].sev)
  {
    var text := Render(IncludeOver(t, n));
    IncludeOverPlain(t, n);
    NoLimitWords(ProblemWords(IncludeOver(t, n)));
    HoldsAnswer(t, n);
    StartsInclude(text);
    NotBeforeInclude(text);
    Decide(text, 10);
  }

  lemma MissingPairs(t: string)
    requires OneWord(t)
    ensures OneWords(ProblemWords(Missing(t))) && NoPair(ProblemWords(Missing(t)), "TXT", "answer")
    ensures NoPair(ProblemWords(Missing(t)), "is", "not")
  {
    TargetWord(t);
  }

  lemma MissingParts(t: string, ms: seq<string>)
    requires ms == ["has", "no", "SPF", "record"]
    ensures ProblemWords(Missing(t)) == ["include:" + t] + ms
  {
  }

  lemma HoldsMissing(t: string)
    ensures Contains(Render(Missing(t)), " has no SPF record") && HasPrefix(Render(Missing(t)), "include:")
  {
    var ms := ["has", "no", "SPF", "record"];
    MissingParts(t, ms);
    WordsTail(["include:" + t], ms);
    IncludePrefix(t, ms);
    SpellMissing(ms);
  }

  lemma ClassifyMissing(t: string)
    requires OneWord(t)
    ensures Classify(Render(Missing(t))) == (CLASSES[12].code, CLASSES[12].sev)
  {
    var ws, text := ProblemWords(Missing(t)), Render(Missing(t));
    IncludePlain(t);
    NoLimitWords(ws);
    HoldsMissing(t);
    MissingPairs(t);
    NoAnswer(ws);
    NoInvalid(ws);
    StartsInclude(text);
    NotBeforeInclude(text);
    Decide(text, 12);
  }

  lemma UncheckedOneWords(t: string)
    requires OneWord(t)
    ensures OneWords(ProblemWords(Unchecked(t)))
  {
    TargetWord(t);
  }

  lemma UncheckedPairs(t: string)
    requires OneWord(t)
    ensures OneWords(ProblemWords(Unchecked(t))) && NoPair(ProblemWords(Unchecked(t)), "TXT", "answer")
    ensures NoPair(ProblemWords(Unchecked(t)), "is", "not") && NoPair(ProblemWords(Unchecked(t)), "has", "no")
  {
    UncheckedOneWords(t);
  }

  lemma UncheckedParts(t: string, ms: seq<string>, ys: seq<string>)
    requires ms != [] && ys != []
    ensures Words(["include:" + t] + (ms + (["checked:"] + ys)))
         == "include:" + t + " " + Words(ms) + " " + "checked:" + " " + Words(ys)
  {
    WordsCons("include:" + t, ms + (["checked:"] + ys));
    WordsAppend(ms, ["checked:"] + ys);
    WordsCons("checked:", ys);
  }

  lemma CheckedContains(h: string, m: string, r: string)
    ensures Contains(h + " " + m + " " + "checked:" + " " + r, " " + m + " checked")
  {
    assert h + " " + m + " " + "checked:" + " " + r == h + (" " + m + " checked") + (": " + r);
    ContainsInner(h, " " + m + " checked", ": " + r);
  }

  lemma UncheckedWords(t: string, ms: seq<string>, ys: seq<string>)
    requires ms == ["could", "not", "be"] && ys == ["its", "TXT", "lookup", "did", "not", "complete"]
    ensures ProblemWords(Unchecked(t)) == ["include:" + t] + (ms + (["checked:"] + ys))
  {
  }

  lemma HoldsUnchecked(t: string)
    ensures Contains(Render(Unchecked(t)), " could not be checked") && HasPrefix(Render(Unchecked(t)), "include:")
  {
    var ms, ys := ["could", "not", "be"], ["its", "TXT", "lookup", "did", "not", "complete"];
    UncheckedWords(t, ms, ys);
    UncheckedParts(t, ms, ys);
    CheckedContains("include:" + t, Words(ms), Words(ys));
    IncludePrefix(t, ms + (["checked:"] + ys));
    SpellUnchecked(ms);
  }

  lemma ClassifyUnchecked(t: string)
    requires OneWord(t)
    ensures Classify(Render(Unchecked(t))) == (CLASSES[13].code, CLASSES[13].sev)
  {
    var ws, text := ProblemWords(Unchecked(t)), Render(Unchecked(t));
    UncheckedPlain(t);
    NoLimitWords(ws);
    HoldsUnchecked(t);
    UncheckedPairs(t);
    NoAnswer(ws);
    NoInvalid(ws);
    NoMissing(ws);
    StartsInclude(text);
    NotBeforeInclude(text);
    Decide(text, 13);
  }

  // ------------------------------------------------------ loops and repeats

  /** The "include:" classes need a colon where an include loop has a space. */
  lemma NotAnInclude(t: string, k: nat)
    requires 10 <= k < 14 && !HasPrefix(t, "include:")
    ensures !Matches(t, CLASSES[k])
  {
  }

  lemma LoopStart(path: seq<string>, t: string)
    ensures HasPrefix(Render(Loop(path, t)), "include loop ")
  {
    var ys := Arrows(path) + [t, "(permerror:", "SPF", "fails", "entirely)"];
    assert ProblemWords(Loop(path, t)) == ["include"] + (["loop"] + ys);
    WordsCons("include", ["loop"] + ys);
    WordsCons("loop", ys);
    assert "include" + " " + "loop" + " " == "include loop ";
    assert Render(Loop(path, t)) == "include loop " + Words(ys);
  }

  lemma ClassifyLoop(path: seq<string>, t: string)
    requires Emittable(Loop(path, t))
    ensures Classify(Render(Loop(path, t))) == (CLASSES[14].code, CLASSES[14].sev)
  {
    var text, p := Render(Loop(path, t)), "include loop ";
    LoopPlain(path, t);
    NoLimitWords(ProblemWords(Loop(path, t)));
    LoopStart(path, t);
    assert text[0] == text[..|p|][0] == 'i' && text[7] == text[..|p|][7] == ' ';
    NotBeforeInclude(text);
    if HasPrefix(text, "include:") {
      StartsInclude(text);
    }
    NotAnInclude(text, 10);
    NotAnInclude(text, 11);
    NotAnInclude(text, 12);
    NotAnInclude(text, 13);
    EmptyContained(text);
    Decide(text, 14);
  }

  lemma CoveredParts(m: string, c: string, domain: string, ms: seq<string>)
    requires ms == ["is", "already", "covered", "by"]
    ensures ProblemWords(Redundant(m, c, domain)) == [m] + ms + [c, "in", domain] == [m] + (ms + [c, "in", domain])
  {
  }

  lemma HoldsCovered(m: string, c: string, domain: string)
    requires HasPrefix(m, "ip")
    ensures Contains(Render(Redundant(m, c, domain)), " is already covered by ")
  {
    var ms := ["is", "already", "covered", "by"];
    CoveredParts(m, c, domain, ms);
    WordsInner([m], ms, [c, "in", domain]);
    SpellCovered(ms);
  }

  lemma StartsWithMechanism(m: string, c: string, domain: string)
    requires HasPrefix(m, "ip")
    ensures var t := Render(Redundant(m, c, domain)); |t| >= 2 && t[0] == 'i' && t[1] == 'p'
  {
    var ms := ["is", "already", "covered", "by"];
    CoveredParts(m, c, domain, ms);
    WordsCons(m, ms + [c, "in", domain]);
    assert m[0] == m[..2][0] && m[1] == m[..2][1];
  }

  lemma ClassifyRedundant(m: string, c: string, domain: string)
    requires Emittable(Redundant(m, c, domain))
    ensures Classify(Render(Redundant(m, c, domain))) == (CLASSES[15].code, CLASSES[15].sev)
  {
    var t, p := Render(Redundant(m, c, domain)), "include loop ";
    RedundantPlain(m, c, domain);
    NoLimitWords(ProblemWords(Redundant(m, c, domain)));
    HoldsCovered(m, c, domain);
    StartsWithMechanism(m, c, domain);
    NotBeforeInclude(t);
    if HasPrefix(t, "include:") {
      StartsInclude(t);
    }
    NotAnInclude(t, 10);
    NotAnInclude(t, 11);
    NotAnInclude(t, 12);
    NotAnInclude(t, 13);
    PrefixAt(t, p, 1);
    assert t[..0] == "";
    Decide(t, 15);
  }

  // ---------------------------------------------------- invalid domain names

  lemma InvalidPairs(t: string)
    requires OneWord(t)
    ensures OneWords(InvalidHead(t) + [""]) && NoPair(InvalidHead(t) + [""], "TXT", "answer")
  {
    TargetWord(t);
  }

  lemma InvalidParts(t: string, message: string)
    ensures Render(InvalidName(t, message)) == Words(InvalidHead(t) + [""]) + ['('] + (message + [')'] + "")
    ensures HasPrefix(Render(InvalidName(t, message)), "include:")
  {
    var head := InvalidHead(t);
    assert ProblemWords(InvalidName(t, message)) == head + ["(" + message + ")"];
    WordsAppend(head, ["(" + message + ")"]);
    WordsAppend(head, [""]);
    assert Words([""]) == "";
    IncludePrefix(t, ProblemWords(InvalidName(t, message))[1..]);
    assert ProblemWords(InvalidName(t, message)) == ["include:" + t] + ProblemWords(InvalidName(t, message))[1..];
  }

  /** A phrase without parentheses that the head does not hold is in the text of an invalid
      name exactly when it is in the message. */
  lemma InvalidHolds(t: string, message: string, pat: string)
    requires pat != "" && '(' !in pat && ')' !in pat && !Contains(Words(InvalidHead(t) + [""]), pat)
    ensures Contains(Render(InvalidName(t, message)), pat) <==> Contains(message, pat)
  {
    InvalidParts(t, message);
    ContainsAcross(Words(InvalidHead(t) + [""]), '(', message + [')'] + "", pat);
    ContainsAcross(message, ')', "", pat);
    assert !Contains("", pat);
  }

  lemma NoParenthesesLookup()
    ensures '(' !in "DNS lookups exceed the limit" && ')' !in "DNS lookups exceed the limit"
  {
  }

  lemma NoParenthesesVoid()
    ensures '(' !in "void lookups exceed the limit" && ')' !in "void lookups exceed the limit"
  {
  }

  lemma NoParenthesesAnswer()
    ensures '(' !in " TXT answer is " && ')' !in " TXT answer is "
  {
  }

  lemma InvalidWords(t: string, message: string, ms: seq<string>)
    requires ms == ["is", "not", "a", "valid", "domain", "name"]
    ensures ProblemWords(InvalidName(t, message)) == ["include:" + t] + ms + ["(" + message + ")"]
  {
  }

  lemma SpacedContains(m: string)
    ensures Contains(" " + m + " ", " " + m)
  {
    ContainsInner("", " " + m, " ");
    assert "" + (" " + m) + " " == " " + m + " ";
  }

  lemma HoldsInvalid(t: string, message: string)
    ensures Contains(Render(InvalidName(t, message)), " is not a valid domain name")
  {
    var ms, text := ["is", "not", "a", "valid", "domain", "name"], Render(InvalidName(t, message));
    InvalidWords(t, message, ms);
    WordsInner(["include:" + t], ms, ["(" + message + ")"]);
    SpacedContains(Words(ms));
    ContainsTransitive(text, " " + Words(ms) + " ", " " + Words(ms));
    SpellInvalid(ms);
  }

  lemma HeadHolds(t: string)
    requires OneWord(t)
    ensures var h := Words(InvalidHead(t) + [""]);
      !Contains(h, "DNS lookups exceed the limit") && !Contains(h, "void lookups exceed the limit")
        && !Contains(h, " TXT answer is ")
  {
    var h := Words(InvalidHead(t) + [""]);
    IncludePlain(t);
    NoLimitWords(InvalidHead(t) + [""]);
    InvalidPairs(t);
    NoAnswer(InvalidHead(t) + [""]);
    LookupLimitPhrase();
    VoidLimitPhrase();
    if Contains(h, "DNS lookups exceed the limit") {
      ContainsTransitive(h, "DNS lookups exceed the limit", " exceed the ");
    }
    if Contains(h, "void lookups exceed the limit") {
      ContainsTransitive(h, "void lookups exceed the limit", " exceed the ");
    }
  }

  /** Which of the classes 1, 2 and 10 an invalid name falls to is up to the message. */
  lemma InvalidMatches(t: string, message: string)
    requires OneWord(t)
    ensures var text := Render(InvalidName(t, message));
      && (Matches(text, CLASSES[1]) <==> Contains(message, "DNS lookups exceed the limit"))
      && (Matches(text, CLASSES[2]) <==> Contains(message, "void lookups exceed the limit"))
      && (Matches(text, CLASSES[10]) <==> Contains(message, " TXT answer is "))
      && Matches(text, CLASSES[11])
  {
    HeadHolds(t);
    NoParenthesesLookup();
    NoParenthesesVoid();
    NoParenthesesAnswer();
    InvalidHolds(t, message, "DNS lookups exceed the limit");
    InvalidHolds(t, message, "void lookups exceed the limit");
    InvalidHolds(t, message, " TXT answer is ");
    InvalidParts(t, message);
    HoldsInvalid(t, message);
    assert Render(InvalidName(t, message))[..0] == "";
  }

  lemma NoPrefixedClass(t: string, j: nat)
    requires HasPrefix(t, "include:") && j < 10 && j != 1 && j != 2
    ensures !Matches(t, CLASSES[j])
  {
    StartsInclude(t);
    InitialsUpTo10();
    PrefixAt(t, CLASSES[j].prefix, 0);
  }

  /** An invalid name is filed under the first class whose phrase the message holds. */
  lemma InvalidFiled(t: string, message: string)
    requires OneWord(t)
    ensures FirstMatch(Render(InvalidName(t, message)), 0) == InvalidClass(message)
  {
    var text := Render(InvalidName(t, message));
    InvalidMatches(t, message);
    InvalidParts(t, message);
    forall j | 0 <= j < 10 && j != 1 && j != 2 ensures !Matches(text, CLASSES[j]) {
      NoPrefixedClass(text, j);
    }
    var k := FirstMatch(text, 0);
    assert k <= 11;
    assert k < 11 ==> k == 1 || k == 2 || k == 10;
  }

  /** An invalid name is reported as one exactly when the name parser's message holds none
      of the phrases other problems are told by. */
  lemma ClassifyInvalid(t: string, message: string)
    requires OneWord(t)
    ensures Classify(Render(InvalidName(t, message))) == (CLASSES[11].code, CLASSES[11].sev) <==> !Misleading(message)
  {
    InvalidFiled(t, message);
    DistinctCodes();
  }

  /** Such a message: the problem of the invalid name is filed as another. */
  lemma MisleadingMessage(message: string)
    requires message == "void lookups exceed the limit"
    ensures Classify(Render(InvalidName("x", message))) != (CLASSES[11].code, CLASSES[11].sev)
  {
    assert message[0..] == message;
    OccursContains(message, message, 0);
    ClassifyInvalid("x", message);
  }

  lemma DistinctCodes()
    ensures CLASSES[1].code != CLASSES[11].code && CLASSES[2].code != CLASSES[11].code
      && CLASSES[10].code != CLASSES[11].code
  {
    assert |CLASSES[1].code| == 16 && |CLASSES[2].code| == 14 && |CLASSES[10].code| == 30 && |CLASSES[11].code| == 19;
  }

  // -------------------------------------------------------- codes and severities

  /** The code and severity of each kind of problem. What makes SPF fail outright or lets every
      sender pass is a failure; the answer sizes and the redundant prefixes are facts. */
  function Graded(p: Problem): (string, Severity) {
    match p
    case MultipleRecords => ("spf_multiple", Fail)
    case LookupLimit(_) => ("spf_lookup_limit", Fail)
    case UnknownMechanism(_, _) => ("spf_unknown_mechanism", Fail)
    case PassAll(_) => ("spf_pass_all", Fail)
    case Loop(_, _) => ("spf_include_loop", Fail)
    case VoidLimit(_) => ("spf_void_limit", Warn)
    case NoAll => ("spf_no_all", Warn)
    case Ptr => ("spf_ptr_deprecated", Warn)
    case NeutralAll(_) => ("spf_neutral_all", Warn)
    case InvalidName(_, _) => ("spf_include_invalid", Warn)
    case Missing(_) => ("spf_include_missing", Warn)
    case Unchecked(_) => ("spf_include_unchecked", Warn)
    case ApexOver(_) => ("spf_txt_over_udp_limit", Info)
    case ApexNear(_) => ("spf_txt_near_udp_limit", Info)
    case IncludeOver(_, _) => ("spf_include_txt_over_udp_limit", Info)
    case Redundant(_, _, _) => ("spf_redundant_ip", Info)
  }

  lemma TableGrades(p: Problem)
    ensures (CLASSES[Meant(p)].code, CLASSES[Meant(p)].sev) == Graded(p)
  {
  }

  /** The report gives every problem that is told apart by its text its own code and severity. */
  lemma ReportGrades(p: Problem)
    requires Emittable(p) && (p.InvalidName? ==> !Misleading(p.message))
    ensures Classify(Render(p)) == Graded(p)
  {
    ClassifyRender(p);
    TableGrades(p);
  }

  // ----------------------------------------------------------- the main result

  /** Every problem the evaluator can emit is classed as itself: its text falls to its own
      code and severity, never to another class or the fallback; but an invalid name whose
      message holds another problem's phrase falls to that one's. */
  lemma ClassifyRender(p: Problem)
    requires Emittable(p)
    ensures Classify(Render(p)) == (CLASSES[FiledUnder(p)].code, CLASSES[FiledUnder(p)].sev)
    ensures FiledUnder(p) == Meant(p) <==> !(p.InvalidName? && Misleading(p.message))
  {
    match p
    case MultipleRecords => ClassifyMultiple();
    case ApexOver(n) => ClassifyApexOver(n);
    case ApexNear(n) => ClassifyApexNear(n);
    case IncludeOver(t, n) => ClassifyIncludeOver(t, n);
    case LookupLimit(n) => ClassifyLookupLimit(n);
    case VoidLimit(n) => ClassifyVoidLimit(n);
    case NoAll => ClassifyNoAll();
    case Ptr => ClassifyPtr();
    case UnknownMechanism(name, domain) => ClassifyUnknown(name, domain);
    case PassAll(via) => ClassifyPassAll(via);
    case NeutralAll(via) => ClassifyNeutralAll(via);
    case InvalidName(t, message) => InvalidFiled(t, message);
    case Loop(path, t) => ClassifyLoop(path, t);
    case Unchecked(t) => ClassifyUnchecked(t);
    case Missing(t) => ClassifyMissing(t);
    case Redundant(m, c, domain) => ClassifyRedundant(m, c, domain);
  }
}
