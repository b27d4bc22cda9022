/** TXT rdata in presentation format (section 5.1 of RFC 1035): the decoder of
    records.go, and the encodings it must undo. One character stands for one octet. */
module TxtPresentation {
  import opened Text

  predicate IsDigit(c: char) {
    '0' <= c <= '9'
  }

  predicate IsDigits(s: string) {
    |s| > 0 && forall i :: 0 <= i < |s| ==> IsDigit(s[i])
  }

  function DigitValue(c: char): nat
    requires IsDigit(c)
  {
    (c - '0') as nat
  }

  /** The octet a `\DDD` escape stands for. It wraps modulo 256, as Go's byte conversion does. */
  function DecimalOctet(s: string): char
    requires |s| == 3 && IsDigits(s)
  {
    ((100 * DigitValue(s[0]) + 10 * DigitValue(s[1]) + DigitValue(s[2])) % 256) as char
  }

  /** The octet the escape at the front of `rest` stands for, and how many characters it takes. */
  function Escape(rest: string): (r: (char, nat))
    requires rest != [] && rest[0] == '\\'
    ensures 1 <= r.1 <= |rest|
  {
    if 3 < |rest| && IsDigits(rest[1..4]) then (DecimalOctet(rest[1..4]), 4)
    else if 1 < |rest| then (rest[1], 2)
    else ('\\', 1)
  }

  /** The strings completed while reading `rest`; `b` is the string read so far. */
  function Scan(rest: string, b: string, inQuote: bool): seq<string>
    decreases |rest|
  {
    if rest == [] then []
    else if rest[0] == '"' then
      (if inQuote then [b] else []) + Scan(rest[1..], if inQuote then "" else b, !inQuote)
    else if !inQuote then Scan(rest[1..], b, inQuote)
    else if rest[0] == '\\' then
      var (c, n) := Escape(rest);
      Scan(rest[n..], b + [c], inQuote)
    else Scan(rest[1..], b + [rest[0]], inQuote)
  }

  function TxtStringsOf(rdata: string): seq<string> {
    if '"' !in rdata then [rdata] else Scan(rdata, "", false)
  }

  /** decodeEscape: appends the octet to the builder and returns the index of the escape's last character. */
  method DecodeEscape(rdata: string, i: nat, b: string) returns (last: nat, b': string)
    requires i < |rdata| && rdata[i] == '\\'
    ensures var (c, n) := Escape(rdata[i..]); b' == b + [c] && last == i + n - 1 && last < |rdata|
  {
    if i + 3 < |rdata| && IsDigits(rdata[i + 1..i + 4]) {
      assert rdata[i..][1..4] == rdata[i + 1..i + 4];
      return i + 3, b + [DecimalOctet(rdata[i + 1..i + 4])];
    }
    if i + 1 < |rdata| {
      assert i + 3 < |rdata| ==> rdata[i..][1..4] == rdata[i + 1..i + 4];
      return i + 1, b + [rdata[i + 1]];
    }
    return i, b + ['\\'];
  }

  method TxtStrings(rdata: string) returns (out: seq<string>)
    ensures out == TxtStringsOf(rdata)
  {
    if '"' !in rdata {
      return [rdata];
    }
    out := [];
    var b := "";
    var inQuote := false;
    var i := 0;
    while i < |rdata|
      invariant 0 <= i <= |rdata|
      invariant out + Scan(rdata[i..], b, inQuote) == Scan(rdata, "", false)
    {
      var c := rdata[i];
      ghost var rest := rdata[i..];
      assert rest[1..] == rdata[i + 1..];
      if c == '"' {
        if inQuote {
          out := out + [b];
          b := "";
        }
        inQuote := !inQuote;
      } else if !inQuote {
      } else if c == '\\' {
        ghost var n := Escape(rest).1;
        assert rest[n..] == rdata[i + n..];
        i, b := DecodeEscape(rdata, i, b);
      } else {
        b := b + [c];
      }
      i := i + 1;
    }
  }

  // ------------------------------------------------------------- the encodings

  /** How one octet is written inside a quoted string. */
  datatype Style = Literal | Backslash | Decimal

  /** The styles section 5.1 of RFC 1035 allows for an octet. */
  predicate Allowed(c: char, style: Style) {
    && c as int < 256
    && match style
       case Literal => c != '"' && c != '\\'
       case Backslash => !IsDigit(c)
       case Decimal => true
  }

  function EncodeOctet(c: char, style: Style): string
    requires Allowed(c, style)
  {
    match style
    case Literal => [c]
    case Backslash => ['\\', c]
    case Decimal =>
      var n := c as int;
      ['\\', Digit(n / 100), Digit(n / 10 % 10), Digit(n % 10)]
  }

  /** A character-string with the style chosen for each octet. */
  type Styled = s: seq<(char, Style)> | forall i :: 0 <= i < |s| ==> Allowed(s[i].0, s[i].1)

  function EncodeBody(s: Styled): string {
    if s == [] then "" else EncodeOctet(s[0].0, s[0].1) + EncodeBody(s[1..])
  }

  function Plain(s: Styled): string {
    if s == [] then "" else [s[0].0] + Plain(s[1..])
  }

  /** A quoted string behind the separator printed before it. */
  datatype Quoted = Quoted(gap: string, body: Styled)

  predicate Separated(qs: seq<Quoted>) {
    forall i :: 0 <= i < |qs| ==> '"' !in qs[i].gap
  }

  function Encode(qs: seq<Quoted>): string {
    if qs == [] then ""
    else qs[0].gap + "\"" + EncodeBody(qs[0].body) + "\"" + Encode(qs[1..])
  }

  function Plains(qs: seq<Quoted>): seq<string> {
    if qs == [] then [] else [Plain(qs[0].body)] + Plains(qs[1..])
  }

  lemma DecimalRoundTrip(c: char)
    requires c as int < 256
    ensures var e := EncodeOctet(c, Decimal); IsDigits(e[1..4]) && DecimalOctet(e[1..4]) == c
  {
    var n := c as int;
    var e := EncodeOctet(c, Decimal);
    assert e[1..4] == [Digit(n / 100), Digit(n / 10 % 10), Digit(n % 10)];
    assert 100 * (n / 100) + 10 * (n / 10 % 10) + n % 10 == n;
  }

  /** One octet, however it was written, is read back as itself. */
  lemma ScanOctet(c: char, style: Style, rest: string, b: string)
    requires Allowed(c, style)
    ensures Scan(EncodeOctet(c, style) + rest, b, true) == Scan(rest, b + [c], true)
  {
    var e := EncodeOctet(c, style);
    var s := e + rest;
    match style {
      case Literal =>
        assert s[1..] == rest;
      case Backslash =>
        assert s[1] == c;
        assert 3 < |s| ==> s[1..4][0] == c;
        assert s[2..] == rest;
      case Decimal =>
        DecimalRoundTrip(c);
        assert s[1..4] == e[1..4];
        assert s[4..] == rest;
    }
  }

  lemma {:induction false} ScanBody(s: Styled, rest: string, b: string)
    ensures Scan(EncodeBody(s) + rest, b, true) == Scan(rest, b + Plain(s), true)
    decreases |s|
  {
    if s == [] {
      assert EncodeBody(s) + rest == rest && b + Plain(s) == b;
    } else {
      var tail: Styled := s[1..];
      var e := EncodeOctet(s[0].0, s[0].1);
      assert EncodeBody(s) + rest == e + (EncodeBody(tail) + rest);
      ScanOctet(s[0].0, s[0].1, EncodeBody(tail) + rest, b);
      ScanBody(tail, rest, b + [s[0].0]);
      assert b + [s[0].0] + Plain(tail) == b + Plain(s);
    }
  }

  lemma {:induction false} ScanGap(gap: string, rest: string)
    requires '"' !in gap
    ensures Scan(gap + rest, "", false) == Scan(rest, "", false)
  {
    if gap == [] {
      assert gap + rest == rest;
    } else {
      assert gap[0] in gap;
      assert (gap + rest)[1..] == gap[1..] + rest;
      ScanGap(gap[1..], rest);
    }
  }

  lemma {:induction false} ScanAll(qs: seq<Quoted>)
    requires Separated(qs)
    ensures Scan(Encode(qs), "", false) == Plains(qs)
  {
    if qs != [] {
      var q, tail := qs[0], Encode(qs[1..]);
      var closing := "\"" + tail;
      var opening := "\"" + (EncodeBody(q.body) + closing);
      assert Encode(qs) == q.gap + opening;
      ScanGap(q.gap, opening);
      assert opening[1..] == EncodeBody(q.body) + closing;
      ScanBody(q.body, closing, "");
      assert "" + Plain(q.body) == Plain(q.body);
      assert closing[1..] == tail;
      assert Separated(qs[1..]) by {
        assert forall i :: 0 <= i < |qs[1..]| ==> qs[1..][i] == qs[i + 1];
      }
      ScanAll(qs[1..]);
    }
  }

  /** Decoding inverts presentation encoding, whatever style each octet was written in. */
  lemma DecodeInvertsEncode(qs: seq<Quoted>)
    requires qs != [] && Separated(qs)
    ensures TxtStringsOf(Encode(qs)) == Plains(qs)
  {
    var s := Encode(qs);
    assert s[|qs[0].gap|] == '"';
    assert '"' in s;
    ScanAll(qs);
  }
}
