/** The parts of Go's `strings` package the program leans on, over Dafny strings. */
module Text {

  datatype Option<+T> = None | Some(value: T)

  // ---------------------------------------------------------------- searching

  predicate HasPrefix(s: string, p: string) {
    |p| <= |s| && s[..|p|] == p
  }

  predicate HasSuffix(s: string, p: string) {
    |p| <= |s| && s[|s| - |p|..] == p
  }

  /** `sub` occurs in `s` at position `i`. */
  predicate OccursAt(s: string, sub: string, i: int) {
    0 <= i <= |s| - |sub| && s[i..i + |sub|] == sub
  }

  predicate Contains(s: string, sub: string) {
    exists i :: 0 <= i <= |s| && OccursAt(s, sub, i)
  }

  /** The first index of `c`, or -1. */
  function IndexByte(s: string, c: char): (i: int)
    ensures -1 <= i < |s|
    ensures i < 0 <==> c !in s
    ensures i >= 0 ==> s[i] == c && forall k :: 0 <= k < i ==> s[k] != c
  {
    if s == [] then -1
    else if s[0] == c then 0
    else
      var i := IndexByte(s[1..], c);
      assert forall k :: 1 <= k < |s| ==> s[k] == s[1..][k - 1];
      if i < 0 then -1 else i + 1
  }

  /** The first index holding any character of `cs`, or -1. */
  function IndexAny(s: string, cs: string): (i: int)
    ensures -1 <= i < |s|
    ensures i >= 0 ==> s[i] in cs && forall k :: 0 <= k < i ==> s[k] !in cs
    ensures i < 0 ==> forall k :: 0 <= k < |s| ==> s[k] !in cs
  {
    if s == [] then -1
    else if s[0] in cs then 0
    else
      var i := IndexAny(s[1..], cs);
      if i < 0 then
        assert forall k :: 1 <= k < |s| ==> s[k] == s[1..][k - 1];
        -1
      else
        assert forall k :: 1 <= k < |s| ==> s[k] == s[1..][k - 1];
        i + 1
  }

  function TrimPrefix(s: string, p: string): string {
    if HasPrefix(s, p) then s[|p|..] else s
  }

  function TrimSuffix(s: string, p: string): string {
    if HasSuffix(s, p) then s[..|s| - |p|] else s
  }

  // ---------------------------------------------------------- case and spaces

  predicate IsSpace(c: char) {
    c == ' ' || c == '\t' || c == '\n' || c == '\r' || c == 11 as char || c == 12 as char
  }

  predicate SpaceFree(s: string) {
    forall i :: 0 <= i < |s| ==> !IsSpace(s[i])
  }

  predicate NonBlank(s: string) {
    exists i :: 0 <= i < |s| && !IsSpace(s[i])
  }

  lemma SpaceFreeConcat(a: string, b: string)
    requires SpaceFree(a) && SpaceFree(b)
    ensures SpaceFree(a + b)
  {
  }

  function LowerChar(c: char): char {
    if 'A' <= c <= 'Z' then c - 'A' + 'a' else c
  }

  function ToLower(s: string): (r: string)
    ensures |r| == |s|
  {
    if s == [] then "" else [LowerChar(s[0])] + ToLower(s[1..])
  }

  lemma {:induction false} LowerAt(s: string)
    ensures forall i :: 0 <= i < |s| ==> ToLower(s)[i] == LowerChar(s[i])
  {
    if s != [] {
      LowerAt(s[1..]);
    }
  }

  function TrimLeft(s: string): (r: string)
    ensures |r| <= |s|
  {
    if s != [] && IsSpace(s[0]) then TrimLeft(s[1..]) else s
  }

  lemma {:induction false} TrimLeftRest(s: string)
    ensures var r := TrimLeft(s);
      && r == s[|s| - |r|..] && (r == [] || !IsSpace(r[0]))
      && forall i :: 0 <= i < |s| - |r| ==> IsSpace(s[i])
  {
    if s != [] && IsSpace(s[0]) {
      var r := TrimLeft(s[1..]);
      TrimLeftRest(s[1..]);
      assert forall i :: 1 <= i < |s| - |r| ==> s[i] == s[1..][i - 1];
    }
  }

  function TrimRight(s: string): (r: string)
    ensures |r| <= |s|
  {
    if s != [] && IsSpace(s[|s| - 1]) then TrimRight(s[..|s| - 1]) else s
  }

  lemma {:induction false} TrimRightRest(s: string)
    ensures var r := TrimRight(s);
      && r == s[..|r|] && (r == [] || !IsSpace(r[|r| - 1]))
      && forall i :: |r| <= i < |s| ==> IsSpace(s[i])
  {
    if s != [] && IsSpace(s[|s| - 1]) {
      TrimRightRest(s[..|s| - 1]);
    }
  }

  function TrimSpace(s: string): string {
    TrimRight(TrimLeft(s))
  }

  // ------------------------------------------------------------- split, join

  /** The pieces of `s` between occurrences of `c`; always at least one. */
  function Split(s: string, c: char): (r: seq<string>)
    ensures |r| >= 1
  {
    var i := IndexByte(s, c);
    if i < 0 then [s] else [s[..i]] + Split(s[i + 1..], c)
  }

  function Join(parts: seq<string>, c: char): string {
    if |parts| == 0 then ""
    else if |parts| == 1 then parts[0]
    else parts[0] + [c] + Join(parts[1..], c)
  }

  predicate Free(parts: seq<string>, c: char) {
    forall i :: 0 <= i < |parts| ==> c !in parts[i]
  }

  lemma FirstIndex(a: string, c: char, b: string)
    requires c !in a
    ensures IndexByte(a + [c] + b, c) == |a|
  {
    var s := a + [c] + b;
    assert s[|a|] == c;
    assert forall k :: 0 <= k < |a| ==> s[k] == a[k];
  }

  /** A piece followed by a separator is split off. */
  lemma SplitCons(a: string, c: char, b: string)
    requires c !in a
    ensures Split(a + [c] + b, c) == [a] + Split(b, c)
  {
    FirstIndex(a, c, b);
    var s := a + [c] + b;
    assert s[..|a|] == a;
    assert s[|a| + 1..] == b;
  }

  /** Splitting undoes joining, for pieces that do not hold the separator. */
  lemma {:induction false} SplitJoin(parts: seq<string>, c: char)
    requires |parts| >= 1 && Free(parts, c)
    ensures Split(Join(parts, c), c) == parts
  {
    if |parts| == 1 {
      assert c !in parts[0];
      assert parts == [parts[0]];
    } else {
      assert c !in parts[0];
      assert forall i :: 0 <= i < |parts[1..]| ==> parts[1..][i] == parts[i + 1];
      SplitJoin(parts[1..], c);
      SplitCons(parts[0], c, Join(parts[1..], c));
      assert parts == [parts[0]] + parts[1..];
    }
  }

  lemma FreeCons(a: string, parts: seq<string>, c: char)
    requires c !in a && Free(parts, c)
    ensures Free([a] + parts, c)
  {
    assert forall i :: 1 <= i < |parts| + 1 ==> ([a] + parts)[i] == parts[i - 1];
  }

  /** Joining undoes splitting. */
  lemma {:induction false} JoinSplit(s: string, c: char)
    ensures Join(Split(s, c), c) == s && Free(Split(s, c), c)
    decreases |s|
  {
    var i := IndexByte(s, c);
    var parts := Split(s, c);
    if i < 0 {
      assert parts == [s];
    } else {
      var rest := Split(s[i + 1..], c);
      JoinSplit(s[i + 1..], c);
      assert parts == [s[..i]] + rest;
      assert parts[1..] == rest;
      assert s == s[..i] + [c] + s[i + 1..];
      FreeCons(s[..i], rest, c);
    }
  }

  // ------------------------------------------------------------------ fields

  /** The length of the leading run of non-space characters. */
  function WordLen(s: string): (n: nat)
    ensures n <= |s| && SpaceFree(s[..n])
    ensures n < |s| ==> IsSpace(s[n])
  {
    if s == [] || IsSpace(s[0]) then 0
    else
      var n := WordLen(s[1..]);
      assert s[..n + 1] == [s[0]] + s[1..][..n];
      n + 1
  }

  predicate IsField(f: string) {
    f != "" && SpaceFree(f)
  }

  /** The maximal runs of non-space characters, in order. */
  function Fields(s: string): (r: seq<string>)
    decreases |s|
  {
    var t := TrimLeft(s);
    if t == [] then []
    else
      var n := WordLen(t);
      [t[..n]] + Fields(t[n..])
  }

  lemma {:induction false} FieldsAreFields(s: string)
    ensures forall i :: 0 <= i < |Fields(s)| ==> IsField(Fields(s)[i])
    decreases |s|
  {
    var t := TrimLeft(s);
    TrimLeftRest(s);
    if t != [] {
      FieldsAreFields(t[WordLen(t)..]);
    }
  }

  lemma {:induction false} WordLenPrefix(w: string, rest: string)
    requires SpaceFree(w) && (rest == [] || IsSpace(rest[0]))
    ensures WordLen(w + rest) == |w|
  {
    if w == [] {
      assert w + rest == rest;
    } else {
      assert (w + rest)[1..] == w[1..] + rest;
      assert SpaceFree(w[1..]) by {
        assert forall i :: 0 <= i < |w[1..]| ==> w[1..][i] == w[i + 1];
      }
      assert !IsSpace(w[0]);
      WordLenPrefix(w[1..], rest);
    }
  }

  /** One word in front of a space becomes one field in front of the others. */
  lemma FieldsCons(w: string, rest: string)
    requires w != "" && SpaceFree(w) && (rest == [] || IsSpace(rest[0]))
    ensures Fields(w + rest) == [w] + Fields(rest)
  {
    var s := w + rest;
    assert s[0] == w[0] && !IsSpace(w[0]);
    assert TrimLeft(s) == s;
    WordLenPrefix(w, rest);
    assert s[..|w|] == w && s[|w|..] == rest;
  }

  lemma FieldsSkip(c: char, rest: string)
    requires IsSpace(c)
    ensures Fields([c] + rest) == Fields(rest)
  {
    assert ([c] + rest)[1..] == rest;
  }


  predicate AreFields(fs: seq<string>) {
    fs == [] || (IsField(fs[0]) && AreFields(fs[1..]))
  }

  /** Each field behind one space. */
  function Spaced(fs: seq<string>): string {
    if fs == [] then "" else " " + (fs[0] + Spaced(fs[1..]))
  }

  lemma SpacedCons(w: string, fs: seq<string>)
    ensures Spaced([w] + fs) == " " + (w + Spaced(fs))
    ensures Spaced(fs) == "" || IsSpace(Spaced(fs)[0])
  {
    assert ([w] + fs)[1..] == fs;
  }

  lemma FieldsOfSpacedCons(w: string, fs: seq<string>)
    requires IsField(w) && Fields(Spaced(fs)) == fs
    ensures Fields(Spaced([w] + fs)) == [w] + fs
  {
    SpacedCons(w, fs);
    FieldsSkip(' ', w + Spaced(fs));
    FieldsCons(w, Spaced(fs));
  }

  lemma {:induction false} FieldsOfSpaced(fs: seq<string>)
    requires AreFields(fs)
    ensures Fields(Spaced(fs)) == fs
  {
    if fs == [] {
      assert Fields("") == [];
    } else {
      FieldsOfSpaced(fs[1..]);
      FieldsOfSpacedCons(fs[0], fs[1..]);
      assert fs == [fs[0]] + fs[1..];
    }
  }

  /** A string with a visible character has a field. */
  lemma FieldsNonEmpty(s: string)
    requires NonBlank(s)
    ensures |Fields(s)| >= 1
  {
    TrimLeftRest(s);
    assert TrimLeft(s) != [];
  }

  // ----------------------------------------------------------------- numbers

  function Digit(d: nat): char
    requires d < 10
  {
    '0' + d as char
  }

  /** Decimal rendering, as fmt's %d gives it for a count. */
  function Itoa(n: nat): (s: string)
    ensures s != "" && forall i :: 0 <= i < |s| ==> '0' <= s[i] <= '9'
  {
    if n < 10 then [Digit(n)] else Itoa(n / 10) + [Digit(n % 10)]
  }

  // ------------------------------------------------------- substring algebra

  lemma OccursContains(s: string, sub: string, i: int)
    requires OccursAt(s, sub, i)
    ensures Contains(s, sub)
  {
  }

  lemma ContainsTransitive(s: string, sub: string, inner: string)
    requires Contains(s, sub) && Contains(sub, inner)
    ensures Contains(s, inner)
  {
    var i :| 0 <= i <= |s| && OccursAt(s, sub, i);
    var k :| 0 <= k <= |sub| && OccursAt(sub, inner, k);
    assert forall j :: 0 <= j < |sub| ==> s[i + j] == sub[j];
    assert forall j :: 0 <= j < |inner| ==> sub[k + j] == inner[j];
    assert forall j :: 0 <= j < |inner| ==> s[(i + k) + j] == s[i + (k + j)] == inner[j];
    OccursContains(s, inner, i + k);
  }

  lemma ContainsInner(a: string, b: string, c: string)
    ensures Contains(a + b + c, b)
  {
    assert (a + b + c)[|a|..|a| + |b|] == b;
    OccursContains(a + b + c, b, |a|);
  }

  lemma ContainsChar(s: string, pat: string, c: char)
    requires Contains(s, pat) && c in pat
    ensures c in s
  {
    var i :| 0 <= i <= |s| && OccursAt(s, pat, i);
    var k :| 0 <= k < |pat| && pat[k] == c;
    assert s[i + k] == s[i..i + |pat|][k];
  }

  lemma ContainsLeft(x: string, y: string, pat: string)
    requires Contains(x, pat)
    ensures Contains(x + y, pat)
  {
    var i :| 0 <= i <= |x| && OccursAt(x, pat, i);
    assert (x + y)[i..i + |pat|] == x[i..i + |pat|];
    OccursContains(x + y, pat, i);
  }

  lemma ContainsRight(x: string, y: string, pat: string)
    requires Contains(y, pat)
    ensures Contains(x + y, pat)
  {
    var i :| 0 <= i <= |y| && OccursAt(y, pat, i);
    assert (x + y)[|x| + i..|x| + i + |pat|] == y[i..i + |pat|];
    OccursContains(x + y, pat, |x| + i);
  }

  /** An occurrence in `x + y` lies in `x`, or in `y`, or across the seam. */
  lemma OccursSides(x: string, y: string, pat: string, i: int)
    requires OccursAt(x + y, pat, i)
    ensures i + |pat| <= |x| ==> Contains(x, pat)
    ensures i >= |x| ==> Contains(y, pat)
  {
    if i + |pat| <= |x| {
      assert (x + y)[i..i + |pat|] == x[i..i + |pat|];
      OccursContains(x, pat, i);
    }
    if i >= |x| {
      assert (x + y)[i..i + |pat|] == y[i - |x|..i - |x| + |pat|];
      OccursContains(y, pat, i - |x|);
    }
  }

  /** A pattern without `c` cannot straddle an occurrence of `c`. */
  lemma ContainsAcross(x: string, c: char, y: string, pat: string)
    requires c !in pat
    ensures Contains(x + [c] + y, pat) <==> Contains(x, pat) || Contains(y, pat)
  {
    var s := x + [c] + y;
    assert s == x + ([c] + y);
    if Contains(s, pat) {
      var i :| 0 <= i <= |s| && OccursAt(s, pat, i);
      OccursSides(x, [c] + y, pat, i);
      OccursSides(x + [c], y, pat, i);
      assert s[|x|] == c;
      assert forall k :: i <= k < i + |pat| ==> s[k] == s[i..i + |pat|][k - i] && pat[k - i] in pat;
    }
    if Contains(x, pat) {
      ContainsLeft(x, [c] + y, pat);
    }
    if Contains(y, pat) {
      ContainsRight(x + [c], y, pat);
    }
  }

  /** A prefix starts as the string does. */
  lemma PrefixAt(s: string, p: string, k: nat)
    requires k < |p|
    ensures HasPrefix(s, p) ==> k < |s| && s[k] == p[k]
  {
  }
}
