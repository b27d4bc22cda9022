/** The terms of an SPF record (section 4.6.1 of RFC 7208) as mail.go parses them. */
module SpfTerms {
  import opened Text

  datatype Term = Term(qualifier: string, name: string, arg: string, modifier: bool)
  {
    predicate IsAll() { name == "all" && !modifier }
    predicate IsInclude() { name == "include" && !modifier }
    predicate IsRedirect() { name == "redirect" && modifier }
    predicate IsIP() { !modifier && (name == "ip4" || name == "ip6") }

    /** The domain an include or redirect names. */
    function Target(): string { TrimPrefix(arg, ":") }
  }

  predicate IsQualifier(c: char) {
    c == '+' || c == '-' || c == '~' || c == '?'
  }

  /** The term behind a qualifier that was already taken off. */
  function ParseBare(qualifier: string, f: string): Term {
    var eq := IndexByte(f, '=');
    if eq > 0 && ':' !in f[..eq] then Term(qualifier, ToLower(f[..eq]), f[eq + 1..], true)
    else
      var i := IndexAny(f, ":/");
      if i > 0 then Term(qualifier, ToLower(f[..i]), f[i..], false)
      else Term(qualifier, ToLower(f), "", false)
  }

  function ParseTerm(f: string): Term
    requires f != ""
  {
    if IsQualifier(f[0]) then ParseBare(f[..1], f[1..]) else ParseBare("+", f)
  }

  function ParseAll(fields: seq<string>): (ts: seq<Term>)
    requires forall i :: 0 <= i < |fields| ==> fields[i] != ""
    ensures |ts| == |fields|
  {
    if fields == [] then [] else [ParseTerm(fields[0])] + ParseAll(fields[1..])
  }

  /** The terms behind the version tag. */
  function ParseTerms(record: string): seq<Term>
    requires NonBlank(record)
  {
    FieldsNonEmpty(record);
    FieldsAreFields(record);
    ParseAll(Fields(record)[1..])
  }

  lemma {:induction false} ParseAllSnoc(fields: seq<string>, f: string)
    requires f != "" && forall i :: 0 <= i < |fields| ==> fields[i] != ""
    ensures ParseAll(fields + [f]) == ParseAll(fields) + [ParseTerm(f)]
  {
    if fields == [] {
      assert fields + [f] == [f];
    } else {
      assert (fields + [f])[1..] == fields[1..] + [f];
      ParseAllSnoc(fields[1..], f);
    }
  }

  /** `i` is the first place of one of two delimiters. */
  predicate FirstOf(f: string, i: nat, c: char, d: char) {
    i < |f| && (f[i] == c || f[i] == d) && forall j :: 0 <= j < i ==> f[j] != c && f[j] != d
  }

  /** A field behind its qualifier is a modifier exactly when it has an equals sign, not in front,
      before any colon; its name is what stands before it. */
  predicate ModifierAt(f: string, i: nat) {
    i > 0 && FirstOf(f, i, '=', '=') && forall j :: 0 <= j < i ==> f[j] != ':'
  }

  predicate HasModifier(f: string) {
    exists i :: 0 <= i < |f| && ModifierAt(f, i)
  }

  /** Section 4.6.1 of RFC 7208 as mail.go reads it: how a field is taken apart. */
  predicate TakenApart(qualifier: string, f: string, t: Term) {
    && t.qualifier == qualifier && t.modifier == HasModifier(f)
    && if HasModifier(f) then exists i :: 0 <= i < |f| && ModifierAt(f, i) && NamedUpTo(f, i, t) && t.arg == f[i + 1..]
       else
         || (exists i :: 0 < i < |f| && FirstOf(f, i, ':', '/') && NamedUpTo(f, i, t) && t.arg == f[i..])
         || ((forall i :: 0 < i < |f| ==> !FirstOf(f, i, ':', '/')) && NamedUpTo(f, |f|, t) && t.arg == "")
  }

  /** The name is the front of the field in lower case. */
  predicate NamedUpTo(f: string, i: nat, t: Term)
    requires i <= |f|
  {
    |t.name| == i && forall j :: 0 <= j < i ==> t.name[j] == LowerChar(f[j])
  }

  lemma NameLower(f: string, i: nat, t: Term)
    requires i <= |f| && t.name == ToLower(f[..i])
    ensures NamedUpTo(f, i, t)
  {
    LowerAt(f[..i]);
    assert forall j :: 0 <= j < i ==> f[..i][j] == f[j];
  }

  lemma ModifierIs(f: string)
    ensures var eq := IndexByte(f, '='); HasModifier(f) <==> eq > 0 && ':' !in f[..eq]
    ensures var eq := IndexByte(f, '='); HasModifier(f) ==> ModifierAt(f, eq)
  {
    var eq := IndexByte(f, '=');
    if eq > 0 {
      assert forall j :: 0 <= j < eq ==> f[..eq][j] == f[j];
      if ':' !in f[..eq] {
        assert forall j :: 0 <= j < eq ==> f[..eq][j] in f[..eq];
        assert ModifierAt(f, eq);
      }
    }
    if i :| 0 <= i < |f| && ModifierAt(f, i) {
      assert i == eq;
    }
  }

  lemma DelimiterIs(f: string)
    ensures var i := IndexAny(f, ":/");
      if i > 0 then FirstOf(f, i, ':', '/') else forall k :: 0 < k < |f| ==> !FirstOf(f, k, ':', '/')
  {
    assert forall c: char :: c in ":/" <==> c == ':' || c == '/';
  }

  lemma BareTakenApart(qualifier: string, f: string)
    ensures TakenApart(qualifier, f, ParseBare(qualifier, f))
  {
    var t := ParseBare(qualifier, f);
    var eq, i := IndexByte(f, '='), IndexAny(f, ":/");
    ModifierIs(f);
    DelimiterIs(f);
    if HasModifier(f) {
      NameLower(f, eq, t);
    } else if i > 0 {
      NameLower(f, i, t);
    } else {
      assert f[..|f|] == f;
      NameLower(f, |f|, t);
    }
  }

  /** What a field is parsed to. */
  lemma FieldTakenApart(f: string)
    requires f != ""
    ensures if f[0] in {'+', '-', '~', '?'} then TakenApart([f[0]], f[1..], ParseTerm(f))
            else TakenApart("+", f, ParseTerm(f))
  {
    if IsQualifier(f[0]) {
      assert f[..1] == [f[0]];
      BareTakenApart(f[..1], f[1..]);
    } else {
      BareTakenApart("+", f);
    }
  }

  method ParseField(field: string) returns (t: Term)
    requires field != ""
    ensures t == ParseTerm(field)
  {
    var f, qualifier := field, "+";
    if IsQualifier(f[0]) {
      qualifier, f := f[..1], f[1..];
    }
    var eq := IndexByte(f, '=');
    if eq > 0 && ':' !in f[..eq] {
      return Term(qualifier, ToLower(f[..eq]), f[eq + 1..], true);
    }
    var i := IndexAny(f, ":/");
    if i > 0 {
      return Term(qualifier, ToLower(f[..i]), f[i..], false);
    }
    return Term(qualifier, ToLower(f), "", false);
  }

  method ParseFields(fields: seq<string>) returns (terms: seq<Term>)
    requires forall i :: 0 <= i < |fields| ==> fields[i] != ""
    ensures terms == ParseAll(fields)
  {
    terms := [];
    for k := 0 to |fields|
      invariant terms == ParseAll(fields[..k])
    {
      assert fields[..k + 1] == fields[..k] + [fields[k]];
      ParseAllSnoc(fields[..k], fields[k]);
      var t := ParseField(fields[k]);
      terms := terms + [t];
    }
    assert fields[..|fields|] == fields;
  }

  method ParseSpfTerms(record: string) returns (terms: seq<Term>)
    requires NonBlank(record)
    ensures terms == ParseTerms(record)
  {
    FieldsNonEmpty(record);
    FieldsAreFields(record);
    terms := ParseFields(Fields(record)[1..]);
  }

  // ---------------------------------------------------------- SPF records

  predicate IsSpfRecord(r: string) {
    var s := ToLower(TrimSpace(r));
    s == "v=spf1" || HasPrefix(s, "v=spf1 ")
  }

  lemma SpfRecordHasVersion(r: string)
    requires IsSpfRecord(r)
    ensures NonBlank(TrimSpace(r))
  {
    var t := TrimSpace(r);
    var s := ToLower(t);
    assert s[0] == 'v' by {
      if HasPrefix(s, "v=spf1 ") { assert s[0] == s[..7][0]; }
    }
    assert !IsSpace(t[0]);
  }

  /** The TXT records that are SPF records, trimmed. */
  function SpfRecords(txt: seq<string>): (out: seq<string>)
    ensures forall i :: 0 <= i < |out| ==> NonBlank(out[i])
  {
    if txt == [] then []
    else if IsSpfRecord(txt[0]) then
      SpfRecordHasVersion(txt[0]);
      [TrimSpace(txt[0])] + SpfRecords(txt[1..])
    else SpfRecords(txt[1..])
  }

  predicate AllSpace(s: string) {
    forall i :: 0 <= i < |s| ==> IsSpace(s[i])
  }

  /** The version tag, in either case. */
  predicate VersionTag(s: string) {
    && |s| >= 6 && (s[0] == 'v' || s[0] == 'V') && s[1] == '=' && (s[2] == 's' || s[2] == 'S')
    && (s[3] == 'p' || s[3] == 'P') && (s[4] == 'f' || s[4] == 'F') && s[5] == '1'
  }

  /** A record says so at `i`: only white space before, the tag, and behind it a space or only
      white space. */
  predicate TaggedAt(r: string, i: nat) {
    && i + 6 <= |r| && AllSpace(r[..i]) && VersionTag(r[i..])
    && (AllSpace(r[i + 6..]) || r[i + 6] == ' ')
  }

  lemma SixChars(x: string, tag: string)
    requires tag == "v=spf1"
    ensures x == tag <==>
      |x| == 6 && x[0] == 'v' && x[1] == '=' && x[2] == 's' && x[3] == 'p' && x[4] == 'f' && x[5] == '1'
  {
  }

  lemma LowerTag(t: string, tag: string)
    requires |t| >= 6 && tag == "v=spf1"
    ensures VersionTag(t) <==> ToLower(t)[..6] == tag
  {
    var s := ToLower(t);
    LowerAt(t);
    SixChars(s[..6], tag);
    LowerForms(t[0], t[1], t[2]);
    LowerForms(t[3], t[4], t[5]);
    assert s[0] == LowerChar(t[0]) && s[1] == LowerChar(t[1]) && s[2] == LowerChar(t[2]);
    assert s[3] == LowerChar(t[3]) && s[4] == LowerChar(t[4]) && s[5] == LowerChar(t[5]);
  }

  lemma LowerForms(a: char, b: char, c: char)
    ensures (LowerChar(a) == 'v' <==> a == 'v' || a == 'V') && (LowerChar(a) == 'p' <==> a == 'p' || a == 'P')
    ensures (LowerChar(b) == '=' <==> b == '=') && (LowerChar(b) == 'f' <==> b == 'f' || b == 'F')
    ensures (LowerChar(c) == 's' <==> c == 's' || c == 'S') && (LowerChar(c) == '1' <==> c == '1')
  {
  }

  lemma TagForms(s: string, tag: string)
    requires tag == "v=spf1"
    ensures (s == tag || HasPrefix(s, tag + " ")) <==> |s| >= 6 && s[..6] == tag && (|s| == 6 || s[6] == ' ')
  {
    if |s| > 6 {
      assert s[..7] == s[..6] + [s[6]];
    } else if |s| == 6 {
      assert s[..6] == s;
    }
  }

  lemma SpfForms(r: string, t: string)
    requires t == TrimSpace(r)
    ensures IsSpfRecord(r) <==> VersionTag(t) && (|t| == 6 || t[6] == ' ')
  {
    var s, tag := ToLower(t), "v=spf1";
    assert tag + " " == "v=spf1 ";
    TagForms(s, tag);
    LowerAt(t);
    if |t| >= 6 {
      LowerTag(t, tag);
    }
  }

  /** A text is white space, what trimming leaves of it, and white space. */
  predicate TrimsAt(r: string, t: string, i: nat) {
    && i + |t| <= |r| && r[i..i + |t|] == t && AllSpace(r[..i]) && AllSpace(r[i + |t|..])
    && (t == "" || (!IsSpace(t[0]) && !IsSpace(t[|t| - 1])))
  }

  lemma TrimPlace(r: string) returns (i: nat)
    ensures TrimsAt(r, TrimSpace(r), i)
  {
    var l, t := TrimLeft(r), TrimSpace(r);
    TrimLeftRest(r);
    TrimRightRest(l);
    i := |r| - |l|;
    assert r[i..] == l;
    assert r[i..i + |t|] == l[..|t|];
    assert r[i + |t|..] == l[|t|..];
    if t != "" {
      assert t[0] == l[0];
    }
  }

  lemma TaggedPlace(r: string, t: string, i: nat, k: nat)
    requires TrimsAt(r, t, i) && TaggedAt(r, k)
    ensures i == k && |t| >= 6 && VersionTag(t) && (|t| == 6 || t[6] == ' ')
  {
    assert !IsSpace(r[k]) && !IsSpace(r[k + 5]) by {
      assert r[k..][0] == r[k] && r[k..][5] == r[k + 5];
    }
    assert forall m :: 0 <= m < i ==> r[..i][m] == r[m];
    assert forall m :: 0 <= m < k ==> r[..k][m] == r[m];
    TagInside(r, t, i, k);
  }

  lemma TagInside(r: string, t: string, i: nat, k: nat)
    requires TrimsAt(r, t, i) && TaggedAt(r, k)
    requires !IsSpace(r[k]) && !IsSpace(r[k + 5])
    requires forall m :: 0 <= m < i ==> IsSpace(r[m])
    requires forall m :: 0 <= m < k ==> IsSpace(r[m])
    ensures i == k && |t| >= 6 && VersionTag(t) && (|t| == 6 || t[6] == ' ')
  {
    SpacesBehind(r, i + |t|, k + 5);
    SpacesBehind(r, i + |t|, k);
    assert t[0] == r[i];
    assert i == k;
    assert forall m :: 0 <= m < |t| ==> t[m] == r[i..][m];
    assert |t| > 6 ==> t[|t| - 1] == r[i + 6..][|t| - 7];
    assert |t| > 6 ==> t[6] == r[i + 6];
  }

  /** What is not white space does not stand where only white space is. */
  lemma SpacesBehind(r: string, end: nat, k: nat)
    requires end <= |r| && k < |r| && AllSpace(r[end..]) && !IsSpace(r[k])
    ensures k < end
  {
    var tail := r[end..];
    assert forall m :: end <= m < |r| ==> r[m] == tail[m - end];
  }

  /** SPF records are exactly the TXT records tagged as such (section 4.5 of RFC 7208). */
  lemma IsSpfRecordMeans(r: string)
    ensures IsSpfRecord(r) <==> exists i :: 0 <= i <= |r| && TaggedAt(r, i)
  {
    var t := TrimSpace(r);
    var i := TrimPlace(r);
    SpfForms(r, t);
    if IsSpfRecord(r) {
      assert forall m :: 0 <= m < |t| ==> r[i..][m] == t[m];
      assert |t| > 6 ==> r[i + 6] == t[6];
      assert TaggedAt(r, i);
    }
    if k :| 0 <= k <= |r| && TaggedAt(r, k) {
      TaggedPlace(r, t, i, k);
    }
  }

  /** The SPF records of an answer are found one by one, in order, and trimmed. */
  lemma {:induction false} SpfRecordsSnoc(txt: seq<string>, r: string)
    ensures SpfRecords(txt + [r]) == SpfRecords(txt) + if IsSpfRecord(r) then [TrimSpace(r)] else []
  {
    if txt == [] {
      assert txt + [r] == [r] && [r][1..] == [];
    } else {
      assert (txt + [r])[1..] == txt[1..] + [r];
      SpfRecordsSnoc(txt[1..], r);
    }
  }

  // -------------------------------------------------- the printer's inverse

  /** A term as an administrator writes it: the qualifier + may be left out. */
  datatype Written = Written(term: Term, explicit: bool)

  predicate IsLower(s: string) {
    ToLower(s) == s
  }

  predicate PlainName(s: string) {
    forall i :: 0 <= i < |s| ==> s[i] != '=' && s[i] != ':' && s[i] != '/'
  }

  function Body(t: Term): string {
    if t.modifier then t.name + "=" + t.arg else t.name + t.arg
  }

  /** The written forms section 4.6.1 of RFC 7208 gives a term: a lower-case name without
      delimiters, and an argument introduced by ':' or '/' whose '=' signs, if any, stand
      behind a ':'. */
  predicate WellFormed(w: Written) {
    var t := w.term;
    && |t.qualifier| == 1 && IsQualifier(t.qualifier[0])
    && t.name != "" && IsLower(t.name) && SpaceFree(t.name) && SpaceFree(t.arg)
    && PlainName(t.name)
    && (!w.explicit ==> t.qualifier == "+" && !IsQualifier(t.name[0]))
    && (t.modifier || t.arg == ""
        || t.arg[0] == ':' || (t.arg[0] == '/' && '=' !in t.arg))
  }

  function Write(w: Written): string {
    (if w.explicit then w.term.qualifier else "") + Body(w.term)
  }

  predicate AllWellFormed(ws: seq<Written>) {
    ws == [] || (WellFormed(ws[0]) && AllWellFormed(ws[1..]))
  }

  function Writes(ws: seq<Written>): seq<string> {
    if ws == [] then [] else [Write(ws[0])] + Writes(ws[1..])
  }

  function WriteRecord(ws: seq<Written>): string {
    "v=spf1" + Spaced(Writes(ws))
  }

  function TermsOf(ws: seq<Written>): seq<Term> {
    if ws == [] then [] else [ws[0].term] + TermsOf(ws[1..])
  }

  lemma ParseModifierBody(t: Term)
    requires t.modifier && t.name != "" && IsLower(t.name) && PlainName(t.name)
    ensures ParseBare(t.qualifier, Body(t)) == t
  {
    var f, n := Body(t), |t.name|;
    assert f[..n] == t.name;
    assert forall i :: 0 <= i < n ==> f[i] == t.name[i];
    assert f[n] == '=';
    assert IndexByte(f, '=') == n;
    assert f[n + 1..] == t.arg;
  }

  lemma ParseMechanismBody(t: Term)
    requires !t.modifier && t.name != "" && IsLower(t.name) && PlainName(t.name)
    requires t.arg == "" || t.arg[0] == ':' || (t.arg[0] == '/' && '=' !in t.arg)
    ensures ParseBare(t.qualifier, Body(t)) == t
  {
    var f, n := Body(t), |t.name|;
    assert f[..n] == t.name && f[n..] == t.arg;
    assert forall i :: 0 <= i < n ==> f[i] == t.name[i];
    assert forall i :: n <= i < |f| ==> f[i] == t.arg[i - n];
    var eq, i := IndexByte(f, '='), IndexAny(f, ":/");
    if t.arg == "" {
      assert f == t.name;
      assert eq < 0 && i < 0;
    } else {
      assert f[n] in ":/";
      assert i == n;
      if eq > 0 {
        assert eq > n;
        assert t.arg[eq - n] in t.arg;
        assert f[..eq][n] == ':';
      }
    }
  }

  lemma ParseBody(w: Written)
    requires WellFormed(w)
    ensures ParseBare(w.term.qualifier, Body(w.term)) == w.term
  {
    if w.term.modifier {
      ParseModifierBody(w.term);
    } else {
      ParseMechanismBody(w.term);
    }
  }

  lemma BodySpaceFree(t: Term)
    requires SpaceFree(t.name) && SpaceFree(t.arg)
    ensures SpaceFree(Body(t))
  {
    assert SpaceFree("=");
    SpaceFreeConcat("=", t.arg);
    assert t.name + "=" + t.arg == t.name + ("=" + t.arg);
    SpaceFreeConcat(t.name, "=" + t.arg);
    SpaceFreeConcat(t.name, t.arg);
  }

  lemma ParseWritten(w: Written)
    requires WellFormed(w)
    ensures Write(w) != "" && SpaceFree(Write(w)) && ParseTerm(Write(w)) == w.term
  {
    var t, f := w.term, Write(w);
    ParseBody(w);
    BodySpaceFree(t);
    if w.explicit {
      assert SpaceFree(t.qualifier);
      SpaceFreeConcat(t.qualifier, Body(t));
      assert f[..1] == t.qualifier && f[1..] == Body(t);
    } else {
      assert f == Body(t) && f[0] == t.name[0];
    }
  }

  lemma {:induction false} ParseWrites(ws: seq<Written>)
    requires AllWellFormed(ws)
    ensures AreFields(Writes(ws))
    ensures forall i :: 0 <= i < |Writes(ws)| ==> Writes(ws)[i] != ""
    ensures ParseAll(Writes(ws)) == TermsOf(ws)
  {
    if ws != [] {
      ParseWritten(ws[0]);
      ParseWrites(ws[1..]);
      assert Writes(ws)[1..] == Writes(ws[1..]);
    }
  }

  /** Parsing a written record gives back its terms: qualifier, name, argument and kind. */
  lemma ParseInvertsWrite(ws: seq<Written>)
    requires AllWellFormed(ws)
    ensures NonBlank(WriteRecord(ws)) && ParseTerms(WriteRecord(ws)) == TermsOf(ws)
  {
    var version, fs := "v=spf1", Writes(ws);
    assert WriteRecord(ws)[0] == version[0] && !IsSpace(version[0]);
    assert SpaceFree(version);
    ParseWrites(ws);
    SpacedCons(version, fs);
    FieldsCons(version, Spaced(fs));
    FieldsOfSpaced(fs);
    assert ([version] + fs)[1..] == fs;
  }

  // ------------------------------------------------------- spaces in terms

  predicate TermSpaceFree(t: Term) {
    SpaceFree(t.name) && SpaceFree(t.arg)
  }

  lemma SliceSpaceFree(s: string, i: nat, j: nat)
    requires SpaceFree(s) && i <= j <= |s|
    ensures SpaceFree(s[i..j])
  {
    assert forall k :: 0 <= k < j - i ==> s[i..j][k] == s[i + k];
  }

  lemma LowerSpaceFree(s: string)
    requires SpaceFree(s)
    ensures SpaceFree(ToLower(s))
  {
    LowerAt(s);
    assert forall i :: 0 <= i < |s| ==> ToLower(s)[i] == LowerChar(s[i]) && !IsSpace(s[i]);
  }

  lemma ParseBareSpaceFree(qualifier: string, f: string)
    requires SpaceFree(f)
    ensures TermSpaceFree(ParseBare(qualifier, f))
  {
    var eq, i := IndexByte(f, '='), IndexAny(f, ":/");
    LowerSpaceFree(f);
    if eq > 0 {
      SliceSpaceFree(f, 0, eq);
      LowerSpaceFree(f[..eq]);
      SliceSpaceFree(f, eq + 1, |f|);
    }
    if i > 0 {
      SliceSpaceFree(f, 0, i);
      LowerSpaceFree(f[..i]);
      SliceSpaceFree(f, i, |f|);
    }
  }

  lemma {:induction false} ParseAllSpaceFree(fields: seq<string>)
    requires forall i :: 0 <= i < |fields| ==> fields[i] != "" && SpaceFree(fields[i])
    ensures forall i :: 0 <= i < |fields| ==> TermSpaceFree(ParseAll(fields)[i])
  {
    if fields != [] {
      var f := fields[0];
      SliceSpaceFree(f, 1, |f|);
      ParseBareSpaceFree(f[..1], f[1..]);
      ParseBareSpaceFree("+", f);
      ParseAllSpaceFree(fields[1..]);
    }
  }

  /** No name or argument of a parsed term holds white space. */
  lemma ParsedTermsSpaceFree(record: string)
    requires NonBlank(record)
    ensures forall i :: 0 <= i < |ParseTerms(record)| ==> TermSpaceFree(ParseTerms(record)[i])
  {
    FieldsNonEmpty(record);
    FieldsAreFields(record);
    ParseAllSpaceFree(Fields(record)[1..]);
  }
}
