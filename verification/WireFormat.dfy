/** An encoder for DNS answers (sections 3.1, 3.2, 3.3 and 4.1 of RFC 1035), written
    independently of the size arithmetic, and the theorems that tie the two.
    One character stands for one octet. */
module WireFormat {
  import opened Text
  import opened Records
  import opened TxtPresentation

  // --------------------------------------------------------------- encoding

  /** A label as it can appear in a name: 1 to 63 octets. */
  predicate IsLabel(l: string) {
    1 <= |l| <= 63
  }

  type Labels = ls: seq<string> | forall i :: 0 <= i < |ls| ==> IsLabel(ls[i])

  function U16(n: nat): string
    requires n < 0x1_0000
  {
    [(n / 256) as char, (n % 256) as char]
  }

  function U32(n: nat): string
    requires n < 0x1_0000_0000
  {
    U16(n / 0x1_0000) + U16(n % 0x1_0000)
  }

  /** An uncompressed name: length-prefixed labels and the root octet. */
  function EncodeName(ls: Labels): string {
    if ls == [] then [0 as char] else [|ls[0]| as char] + ls[0] + EncodeName(ls[1..])
  }

  /** A label as it is printed: every octet in one of the styles of a character-string, a dot
      never as itself. */
  predicate IsPrinted(l: Styled) {
    1 <= |l| <= 63 && forall i :: 0 <= i < |l| ==> l[i] != ('.', Literal)
  }

  type PrintedLabels = ls: seq<Styled> | forall i :: 0 <= i < |ls| ==> IsPrinted(ls[i])

  function OctetsOf(ls: PrintedLabels): Labels {
    if ls == [] then []
    else
      PlainLength(ls[0]);
      [Plain(ls[0])] + OctetsOf(ls[1..])
  }

  function TextsOf(ls: PrintedLabels): seq<string> {
    if ls == [] then [] else [EncodeBody(ls[0])] + TextsOf(ls[1..])
  }

  lemma {:induction false} PlainLength(l: Styled)
    ensures |Plain(l)| == |l|
  {
    if l != [] {
      PlainLength(l[1..]);
    }
  }

  /** A name and how it is printed: its labels, and the final dot of an absolute name. */
  datatype Name = Name(labels: PrintedLabels, absolute: bool)
  {
    function Octets(): Labels { OctetsOf(labels) }

    function Text(): string { Join(TextsOf(labels), '.') + if absolute then "." else "" }
  }

  predicate IsCharString(s: string) {
    |s| <= 255 && forall i :: 0 <= i < |s| ==> s[i] as int < 256
  }

  type CharStrings = ss: seq<string> | forall i :: 0 <= i < |ss| ==> IsCharString(ss[i])

  function EncodeStrings(ss: CharStrings): string {
    if ss == [] then "" else [|ss[0]| as char] + ss[0] + EncodeStrings(ss[1..])
  }

  datatype Rdata = Txt(strings: CharStrings) | Cname(target: Name)

  function EncodeRdata(d: Rdata): string {
    match d
    case Txt(ss) => EncodeStrings(ss)
    case Cname(t) => EncodeName(t.Octets())
  }

  function TypeCode(d: Rdata): nat {
    match d
    case Txt(_) => 16
    case Cname(_) => 5
  }

  /** A record of the answer section; its owner is compressed to a pointer. */
  datatype Answer = Answer(pointer: nat, ttl: nat, rdata: Rdata)

  predicate Encodable(a: Answer) {
    a.pointer < 0x4000 && a.ttl < 0x1_0000_0000 && |EncodeRdata(a.rdata)| < 0x1_0000
    && (a.rdata.Txt? ==> |a.rdata.strings| >= 1)
  }

  type Answers = s: seq<Answer> | forall i :: 0 <= i < |s| ==> Encodable(s[i])

  function EncodeAnswer(a: Answer): string
    requires Encodable(a)
  {
    var rdata := EncodeRdata(a.rdata);
    U16(0xC000 + a.pointer) + U16(TypeCode(a.rdata)) + U16(1) + U32(a.ttl) + U16(|rdata|) + rdata
  }

  function EncodeAnswers(s: Answers): string {
    if s == [] then "" else EncodeAnswer(s[0]) + EncodeAnswers(s[1..])
  }

  /** Header (id, flags, counts), the TXT question, and the answer section. */
  function EncodeMessage(id: nat, flags: nat, qname: Labels, s: Answers): string
    requires id < 0x1_0000 && flags < 0x1_0000 && |s| < 0x1_0000
  {
    U16(id) + U16(flags) + U16(1) + U16(|s|) + U16(0) + U16(0)
    + EncodeName(qname) + U16(16) + U16(1)
    + EncodeAnswers(s)
  }

  // ---------------------------------------------------------- name lengths

  /** How many characters the escapes of a label add: one for a backslash and three for an
      octet in decimal. */
  function Escapes(l: Styled): nat {
    if l == [] then 0
    else (match l[0].1 case Literal => 0 case Backslash => 1 case Decimal => 3) + Escapes(l[1..])
  }

  function EscapesOf(ls: PrintedLabels): nat {
    if ls == [] then 0 else Escapes(ls[0]) + EscapesOf(ls[1..])
  }

  lemma {:induction false} BodyLength(l: Styled)
    ensures |EncodeBody(l)| == |l| + Escapes(l)
  {
    if l != [] {
      BodyLength(l[1..]);
    }
  }

  lemma {:induction false} JoinedLength(ls: PrintedLabels)
    requires ls != []
    ensures |EncodeName(OctetsOf(ls))| + EscapesOf(ls) == |Join(TextsOf(ls), '.')| + 2
  {
    assert IsPrinted(ls[0]);
    PlainLength(ls[0]);
    BodyLength(ls[0]);
    var rest: PrintedLabels := ls[1..];
    assert OctetsOf(ls)[1..] == OctetsOf(rest) && TextsOf(ls)[1..] == TextsOf(rest);
    if |ls| > 1 {
      JoinedLength(rest);
    }
  }

  /** wireNameLen takes the final dot of a name that is not absolute, if escaped, for the
      root's. */
  predicate DotMistaken(n: Name) {
    !n.absolute && HasSuffix(Join(TextsOf(n.labels), '.'), ".")
  }

  /** What wireNameLen counts too much for a name. */
  function Excess(n: Name): int {
    EscapesOf(n.labels) - if DotMistaken(n) then 1 else 0
  }

  /** wireNameLen is the encoded length and what the escapes add. */
  lemma WireNameLenExcess(n: Name)
    ensures WireNameLen(n.Text()) == |EncodeName(n.Octets())| + Excess(n)
  {
    var text := Join(TextsOf(n.labels), '.');
    if n.labels == [] {
      assert TrimSuffix(".", ".") == "";
    } else {
      JoinedLength(n.labels);
      EncodedAtLeast(n.labels);
      if n.absolute {
        assert (text + ".")[|text|..] == "." && (text + ".")[..|text|] == text;
      } else {
        assert text + "" == text;
      }
    }
  }

  /** A name of one label and more prints as two characters at least when a dot ends it. */
  lemma EncodedAtLeast(ls: PrintedLabels)
    requires ls != []
    ensures Join(TextsOf(ls), '.') != "" && Join(TextsOf(ls), '.') != "."
  {
    var l := ls[0];
    assert IsPrinted(l);
    var head := EncodeOctet(l[0].0, l[0].1);
    assert head[0] != '.';
    assert TextsOf(ls)[0][0] == head[0];
    assert Join(TextsOf(ls), '.')[0] == head[0];
  }

  predicate Unescaped(n: Name) {
    forall i :: 0 <= i < |n.labels| ==> AllLiteral(n.labels[i])
  }

  predicate AllLiteral(l: Styled) {
    forall i :: 0 <= i < |l| ==> l[i].1 == Literal
  }

  lemma {:induction false} NoEscapes(l: Styled)
    ensures Escapes(l) == 0 <==> AllLiteral(l)
  {
    if l != [] {
      NoEscapes(l[1..]);
      assert forall i :: 1 <= i < |l| ==> l[i] == l[1..][i - 1];
      assert forall i :: 0 <= i < |l| - 1 ==> l[1..][i] == l[i + 1];
    }
  }

  lemma {:induction false} NoEscapesOf(ls: PrintedLabels)
    ensures EscapesOf(ls) == 0 <==> forall i :: 0 <= i < |ls| ==> AllLiteral(ls[i])
  {
    if ls != [] {
      NoEscapesOf(ls[1..]);
      NoEscapes(ls[0]);
      assert forall i :: 1 <= i < |ls| ==> ls[i] == ls[1..][i - 1];
      assert forall i :: 0 <= i < |ls| - 1 ==> ls[1..][i] == ls[i + 1];
    }
  }

  /** wireNameLen is the encoded length of an absolute name if and only if nothing in it is
      escaped. */
  lemma WireNameLenIsEncoded(n: Name)
    requires n.absolute
    ensures WireNameLen(n.Text()) == |EncodeName(n.Octets())| <==> Unescaped(n)
  {
    WireNameLenExcess(n);
    NoEscapesOf(n.labels);
  }

  /** A name for which it is not: one space, printed in decimal. */
  lemma EscapedNameMeasured(n: Name)
    requires n == Name([[(' ', Decimal)]], true)
    ensures WireNameLen(n.Text()) == |EncodeName(n.Octets())| + 3
  {
    WireNameLenExcess(n);
    var l: Styled := [(' ', Decimal)];
    assert l[1..] == [] && n.labels[1..] == [];
    assert Escapes(l) == 3;
  }

  // ----------------------------------------- rdata lengths, as dig prints it

  /** parseRR's RDLen for the strings of a TXT record. */
  function DigTxtLength(ss: seq<string>): nat {
    if ss == [] then 0 else 1 + |ss[0]| + DigTxtLength(ss[1..])
  }

  lemma {:induction false} DigTxtLengthIsEncoded(ss: CharStrings)
    ensures DigTxtLength(ss) == |EncodeStrings(ss)|
  {
    if ss != [] {
      var rest: CharStrings := ss[1..];
      DigTxtLengthIsEncoded(rest);
    }
  }

  method DigRecordLength(rdata: string) returns (joined: string, rdlen: nat)
    ensures joined == Concat(TxtStringsOf(rdata))
    ensures rdlen == DigTxtLength(TxtStringsOf(rdata))
  {
    var strs := TxtStrings(rdata);
    joined, rdlen := "", 0;
    for i := 0 to |strs|
      invariant joined + Concat(strs[i..]) == Concat(strs)
      invariant rdlen + DigTxtLength(strs[i..]) == DigTxtLength(strs)
    {
      assert strs[i..] == [strs[i]] + strs[i + 1..];
      joined, rdlen := joined + strs[i], rdlen + 1 + |strs[i]|;
    }
  }

  function Concat(ss: seq<string>): string {
    if ss == [] then "" else ss[0] + Concat(ss[1..])
  }

  // ------------------------------------------- rdata lengths, as dog sends it

  /** dog joins a 255-octet character-string with the one after it. */
  function Merge(ss: seq<string>): (m: seq<string>)
    ensures ss != [] ==> m != []
  {
    if |ss| <= 1 then ss
    else
      var m := Merge(ss[1..]);
      if |ss[0]| == 255 then [ss[0] + m[0]] + m[1..] else [ss[0]] + m
  }

  function TxtLengthOctets(n: nat): nat {
    if n == 0 then 1 else (n + 254) / 255
  }

  /** dogRR's RDLen for the messages of a TXT record. */
  function DogTxtLength(messages: seq<string>): nat {
    if messages == [] then 0
    else |messages[0]| + TxtLengthOctets(|messages[0]|) + DogTxtLength(messages[1..])
  }

  method DogRecordLength(messages: seq<string>) returns (rdlen: nat)
    ensures rdlen == DogTxtLength(messages)
  {
    rdlen := 0;
    for i := 0 to |messages|
      invariant rdlen + DogTxtLength(messages[i..]) == DogTxtLength(messages)
    {
      assert messages[i..] == [messages[i]] + messages[i + 1..];
      rdlen := rdlen + |messages[i]| + TxtLengthOctets(|messages[i]|);
    }
  }

  /** How many empty strings directly follow a 255-octet one. */
  function Swallowed(ss: seq<string>): nat {
    if |ss| <= 1 then 0
    else (if |ss[0]| == 255 && ss[1] == "" then 1 else 0) + Swallowed(ss[1..])
  }

  /** The length recovered from dog's merged strings falls short of the wire by one octet
      for each empty string that directly follows a 255-octet one, and by nothing else. */
  lemma {:induction false} DogTxtLengthDeficit(ss: CharStrings)
    ensures DogTxtLength(Merge(ss)) + Swallowed(ss) == |EncodeStrings(ss)|
    ensures ss != [] ==> (Merge(ss)[0] == "" <==> ss[0] == "")
  {
    if ss == [] {
    } else if |ss| == 1 {
      assert IsCharString(ss[0]);
      assert ss[1..] == [];
      assert Merge(ss)[1..] == [];
    } else {
      assert IsCharString(ss[0]);
      var rest: CharStrings := ss[1..];
      DogTxtLengthDeficit(rest);
      var m := Merge(rest);
      if |ss[0]| == 255 {
        var joined := [ss[0] + m[0]] + m[1..];
        assert joined[1..] == m[1..];
        var n := |m[0]|;
        assert TxtLengthOctets(255 + n) == if n == 0 then 1 else 1 + TxtLengthOctets(n);
      } else {
        assert ([ss[0]] + m)[1..] == m;
      }
    }
  }

  /** The string at `i` is empty and directly follows a 255-octet one. */
  predicate SwallowedAt(ss: seq<string>, i: nat) {
    0 < i < |ss| && |ss[i - 1]| == 255 && ss[i] == ""
  }

  predicate NothingSwallowed(ss: seq<string>) {
    forall i :: 0 < i < |ss| ==> !SwallowedAt(ss, i)
  }

  lemma {:induction false} SwallowedNone(ss: seq<string>)
    ensures Swallowed(ss) == 0 <==> NothingSwallowed(ss)
  {
    if |ss| > 1 {
      var rest := ss[1..];
      SwallowedNone(rest);
      assert forall i :: 1 < i < |ss| ==> (SwallowedAt(ss, i) <==> SwallowedAt(rest, i - 1));
      assert forall i :: 0 < i < |rest| ==> (SwallowedAt(rest, i) <==> SwallowedAt(ss, i + 1));
      assert SwallowedAt(ss, 1) <==> |ss[0]| == 255 && ss[1] == "";
    }
  }

  /** For which records the length recovered from dog's strings is exact. */
  lemma DogTxtLengthExact(ss: CharStrings)
    ensures DogTxtLength(Merge(ss)) == |EncodeStrings(ss)| <==> NothingSwallowed(ss)
  {
    DogTxtLengthDeficit(ss);
    SwallowedNone(ss);
  }

  /** A record for which it is not. */
  lemma EmptyStringSwallowed(full: string)
    requires full == seq(255, _ => 'a')
    ensures IsCharString(full) && IsCharString("")
    ensures DogTxtLength(Merge([full, ""])) + 1 == |EncodeStrings([full, ""])|
  {
    var ss: CharStrings := [full, ""];
    DogTxtLengthDeficit(ss);
    assert ss[1..] == [""];
    assert Swallowed([""]) == 0;
  }

  // ------------------------------------------------------- the whole answer

  /** Which tool the records came through. */
  datatype Source = Dig | Dog

  /** The record a tool's parser builds for one answer, owner and rdata text aside. */
  ghost predicate Parsed(rr: RR, a: Answer, source: Source) {
    match a.rdata
    case Txt(ss) =>
      && rr.rtype == "TXT"
      && if source == Dog then rr.rdlen == DogTxtLength(Merge(ss))
         else exists qs :: Printed(qs, ss) && rr.rdlen == DigTxtLength(TxtStringsOf(Encode(qs)))
    case Cname(t) =>
      && rr.rtype == "CNAME"
      && rr.rdata == t.Text()
      && rr.rdlen == WireNameLen(rr.rdata)
  }

  /** `qs` is a presentation of the character-strings `ss`. */
  predicate Printed(qs: seq<Quoted>, ss: seq<string>) {
    qs != [] && Separated(qs) && Plains(qs) == ss
  }

  ghost predicate AllParsed(rrs: seq<RR>, s: Answers, source: Source) {
    |rrs| == |s| && forall i :: 0 <= i < |s| ==> Parsed(rrs[i], s[i], source)
  }

  /** What dog's joining loses of an answer's TXT records. */
  function Lost(s: Answers, source: Source): nat {
    if s == [] then 0 else LostOf(s[0], source) + Lost(s[1..], source)
  }

  function LostOf(a: Answer, source: Source): nat {
    match a.rdata
    case Txt(ss) => if source == Dog then Swallowed(ss) else 0
    case Cname(_) => 0
  }

  /** What the escapes in CNAME targets add. */
  function Gained(s: Answers): int {
    if s == [] then 0 else GainedOf(s[0]) + Gained(s[1..])
  }

  function GainedOf(a: Answer): int {
    match a.rdata
    case Txt(_) => 0
    case Cname(t) => Excess(t)
  }

  lemma RecordOctetsOf(rr: RR, a: Answer, source: Source)
    requires Parsed(rr, a, source) && Encodable(a)
    ensures Counted(rr, "TXT") && RR_FIXED + rr.rdlen + LostOf(a, source) == |EncodeAnswer(a)| + GainedOf(a)
  {
    match a.rdata {
      case Txt(ss) =>
        DigTxtLengthIsEncoded(ss);
        DogTxtLengthDeficit(ss);
        if source == Dig {
          var qs :| Printed(qs, ss) && rr.rdlen == DigTxtLength(TxtStringsOf(Encode(qs)));
          DecodeInvertsEncode(qs);
        }
      case Cname(t) =>
        WireNameLenExcess(t);
    }
  }

  lemma {:induction false} AnswerOctetsOf(rrs: seq<RR>, s: Answers, source: Source)
    requires AllParsed(rrs, s, source)
    ensures RecordOctets(rrs, "TXT") + Lost(s, source) == |EncodeAnswers(s)| + Gained(s)
  {
    if s != [] {
      var rest: Answers := s[1..];
      assert Parsed(rrs[0], s[0], source) && Encodable(s[0]);
      forall i | 0 <= i < |rest| ensures Parsed(rrs[1..][i], rest[i], source) {
        assert Parsed(rrs[i + 1], s[i + 1], source);
      }
      AnswerOctetsOf(rrs[1..], rest, source);
      RecordOctetsOf(rrs[0], s[0], source);
    }
  }

  lemma {:induction false} DigLosesNothing(s: Answers)
    ensures Lost(s, Dig) == 0
  {
    if s != [] {
      DigLosesNothing(s[1..]);
    }
  }

  /** What escapes in the names of an answer add to its size. */
  function Surplus(qname: Name, s: Answers): int {
    Excess(qname) + Gained(s)
  }

  /** udpAnswerOctets is the length of the encoded answer, but for what escaped names add and
      for the empty strings dog's joining swallows. */
  lemma AnswerOctetsIsMessageLength(l: Lookup, id: nat, flags: nat, qname: Name, s: Answers, source: Source)
    requires id < 0x1_0000 && flags < 0x1_0000 && |s| < 0x1_0000
    requires l.qtype == "TXT" && AllParsed(CountedOf(l.rrs, l.qtype), s, source)
    requires SizedName(l) == qname.Text()
    ensures AnswerOctets(l) + Lost(s, source)
         == |EncodeMessage(id, flags, qname.Octets(), s)| + Surplus(qname, s)
  {
    WireNameLenExcess(qname);
    OthersAddNothing(l.rrs, l.qtype);
    AnswerOctetsOf(CountedOf(l.rrs, l.qtype), s, source);
  }

  lemma {:induction false} NothingGained(s: Answers)
    requires forall i :: 0 <= i < |s| && s[i].rdata.Cname? ==> s[i].rdata.target.absolute
    ensures Gained(s) >= 0
    ensures Gained(s) == 0 <==> forall i :: 0 <= i < |s| && s[i].rdata.Cname? ==> Unescaped(s[i].rdata.target)
  {
    if s != [] {
      var rest: Answers := s[1..];
      assert forall i :: 1 <= i < |s| ==> s[i] == rest[i - 1];
      assert forall i :: 0 <= i < |rest| ==> rest[i] == s[i + 1];
      NothingGained(rest);
      if s[0].rdata.Cname? {
        NoEscapesOf(s[0].rdata.target.labels);
      }
    }
  }

  predicate AllAbsolute(qname: Name, s: Answers) {
    qname.absolute && forall i :: 0 <= i < |s| && s[i].rdata.Cname? ==> s[i].rdata.target.absolute
  }

  predicate AllUnescaped(qname: Name, s: Answers) {
    Unescaped(qname) && forall i :: 0 <= i < |s| && s[i].rdata.Cname? ==> Unescaped(s[i].rdata.target)
  }

  lemma NoSurplus(qname: Name, s: Answers)
    requires AllAbsolute(qname, s)
    ensures Surplus(qname, s) >= 0
    ensures Surplus(qname, s) == 0 <==> AllUnescaped(qname, s)
  {
    NoEscapesOf(qname.labels);
    NothingGained(s);
  }

  /** Over dig, which prints absolute names, the size is exact if and only if no name of the
      answer holds an escape. */
  lemma DigAnswerExact(l: Lookup, id: nat, flags: nat, qname: Name, s: Answers)
    requires id < 0x1_0000 && flags < 0x1_0000 && |s| < 0x1_0000
    requires l.qtype == "TXT" && AllParsed(CountedOf(l.rrs, l.qtype), s, Dig)
    requires SizedName(l) == qname.Text() && AllAbsolute(qname, s)
    ensures AnswerOctets(l) == |EncodeMessage(id, flags, qname.Octets(), s)| <==> AllUnescaped(qname, s)
  {
    AnswerOctetsIsMessageLength(l, id, flags, qname, s, Dig);
    DigLosesNothing(s);
    NoSurplus(qname, s);
  }

  lemma {:induction false} LostNothing(s: Answers)
    ensures Lost(s, Dog) == 0 <==> forall i :: 0 <= i < |s| && s[i].rdata.Txt? ==> NothingSwallowed(s[i].rdata.strings)
  {
    if s != [] {
      var rest: Answers := s[1..];
      LostNothing(rest);
      if s[0].rdata.Txt? {
        SwallowedNone(s[0].rdata.strings);
      }
      assert forall i :: 1 <= i < |s| ==> s[i] == rest[i - 1];
      assert forall i :: 0 <= i < |rest| ==> rest[i] == s[i + 1];
    }
  }

  /** Over dog the size is exact if and only if escapes add what the joining swallows. With
      no escapes in its names, that is when no TXT record of the answer holds an empty string
      directly behind a 255-octet one. */
  lemma DogAnswerExact(l: Lookup, id: nat, flags: nat, qname: Name, s: Answers)
    requires id < 0x1_0000 && flags < 0x1_0000 && |s| < 0x1_0000
    requires l.qtype == "TXT" && AllParsed(CountedOf(l.rrs, l.qtype), s, Dog)
    requires SizedName(l) == qname.Text()
    ensures var exact := AnswerOctets(l) == |EncodeMessage(id, flags, qname.Octets(), s)|;
      && (exact <==> Lost(s, Dog) == Surplus(qname, s))
      && (AllUnescaped(qname, s) ==>
            (exact <==> forall i :: 0 <= i < |s| && s[i].rdata.Txt? ==> NothingSwallowed(s[i].rdata.strings)))
  {
    AnswerOctetsIsMessageLength(l, id, flags, qname, s, Dog);
    LostNothing(s);
    if AllUnescaped(qname, s) {
      UnescapedAddNothing(qname, s);
    }
  }

  predicate EndsOtherwise(t: string) {
    t != "" && t[|t| - 1] != '.'
  }

  lemma NoDotSuffix(t: string)
    requires EndsOtherwise(t)
    ensures !HasSuffix(t, ".")
  {
    assert t[|t| - 1..] == [t[|t| - 1]];
  }

  lemma LiteralLabelEnd(l: Styled)
    requires IsPrinted(l) && AllLiteral(l)
    ensures EndsOtherwise(EncodeBody(l))
  {
    var last := l[|l| - 1];
    LiteralBody(l);
    assert last.1 == Literal;
    assert last == (last.0, Literal);
  }

  /** A name without escapes ends in no escaped dot either. */
  lemma {:induction false} UnescapedEnd(ls: PrintedLabels)
    requires ls != [] && forall i :: 0 <= i < |ls| ==> AllLiteral(ls[i])
    ensures EndsOtherwise(Join(TextsOf(ls), '.'))
  {
    var texts := TextsOf(ls);
    assert AllLiteral(ls[0]);
    LiteralLabelEnd(ls[0]);
    if |ls| > 1 {
      var later: PrintedLabels := ls[1..];
      assert forall i :: 0 <= i < |later| ==> later[i] == ls[i + 1];
      UnescapedEnd(later);
      assert texts[1..] == TextsOf(later);
      assert Join(texts, '.') == texts[0] + "." + Join(TextsOf(later), '.');
    } else {
      assert texts == [EncodeBody(ls[0])];
    }
  }

  lemma {:induction false} LiteralBody(l: Styled)
    requires AllLiteral(l)
    ensures |EncodeBody(l)| == |l| && forall i :: 0 <= i < |l| ==> EncodeBody(l)[i] == l[i].0
  {
    if l != [] {
      assert forall i :: 0 <= i < |l| - 1 ==> l[1..][i] == l[i + 1];
      LiteralBody(l[1..]);
    }
  }

  lemma UnescapedNoExcess(n: Name)
    requires Unescaped(n)
    ensures Excess(n) == 0
  {
    NoEscapesOf(n.labels);
    if n.labels != [] {
      UnescapedEnd(n.labels);
      NoDotSuffix(Join(TextsOf(n.labels), '.'));
    }
  }

  lemma {:induction false} UnescapedAddNothing(qname: Name, s: Answers)
    requires AllUnescaped(qname, s)
    ensures Surplus(qname, s) == 0
  {
    UnescapedNoExcess(qname);
    if s != [] {
      var rest: Answers := s[1..];
      assert forall i :: 0 <= i < |rest| ==> rest[i] == s[i + 1];
      UnescapedAddNothing(qname, rest);
      if s[0].rdata.Cname? {
        UnescapedNoExcess(s[0].rdata.target);
      }
    }
  }
}
