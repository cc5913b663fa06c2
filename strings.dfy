/**
  The string helpers the program relies on, on byte strings: splitting on
  and joining with a separator, substring tests, ASCII case mapping, the
  word-initial capitalisation of a title, and byte-wise ordering.
*/
module Strings {

  /** parts[0] + sep + parts[1] + sep + ... — exactly |parts| - 1 separators (strings.Join). */
  function Join(parts: seq<string>, sep: string): string {
    if |parts| == 0 then ""
    else if |parts| == 1 then parts[0]
    else parts[0] + sep + Join(parts[1..], sep)
  }

  lemma {:induction false} JoinSnoc(parts: seq<string>, x: string, sep: string)
    requires parts != []
    ensures Join(parts + [x], sep) == Join(parts, sep) + sep + x
    decreases |parts|
  {
    if |parts| == 1 {
      assert parts + [x] == [parts[0], x];
      assert ([parts[0], x])[1..] == [x];
    } else {
      assert (parts + [x])[1..] == parts[1..] + [x];
      JoinSnoc(parts[1..], x, sep);
    }
  }

  /** Joining with no separator is concatenation. */
  lemma JoinCons(x: string, parts: seq<string>)
    ensures Join([x] + parts, "") == x + Join(parts, "")
  {
    if parts == [] {
      assert [x] + parts == [x];
    } else {
      assert ([x] + parts)[1..] == parts;
    }
  }

  /** The position of the first c in s. */
  function IndexOf(s: string, c: char): (i: nat)
    requires c in s
    ensures i < |s| && s[i] == c && c !in s[..i]
  {
    if s[0] == c then 0 else
      assert s[1..][IndexOf(s[1..], c)] == c;
      assert s[..1 + IndexOf(s[1..], c)] == [s[0]] + s[1..][..IndexOf(s[1..], c)];
      1 + IndexOf(s[1..], c)
  }

  /** strings.Split with a one-character separator: the pieces between the separators, in order. */
  function Split(s: string, c: char): (parts: seq<string>)
    ensures |parts| >= 1
    decreases |s|
  {
    if c !in s then [s]
    else
      var i := IndexOf(s, c);
      [s[..i]] + Split(s[i + 1..], c)
  }

  /** Joining the pieces with the separator gives back the string, and no piece holds the separator. */
  lemma {:induction false} SplitJoin(s: string, c: char)
    ensures Join(Split(s, c), [c]) == s
    ensures forall k :: 0 <= k < |Split(s, c)| ==> c !in Split(s, c)[k]
    decreases |s|
  {
    if c in s {
      var i := IndexOf(s, c);
      var rest := Split(s[i + 1..], c);
      SplitJoin(s[i + 1..], c);
      assert Split(s, c) == [s[..i]] + rest;
      assert ([s[..i]] + rest)[1..] == rest;
      assert s == s[..i] + [c] + s[i + 1..];
      forall k | 0 <= k < |Split(s, c)|
        ensures c !in Split(s, c)[k]
      {
        if k > 0 {
          assert Split(s, c)[k] == rest[k - 1];
        }
      }
    }
  }

  /** A join of two or more separator-free pieces splits at its first separator, after the first piece. */
  lemma JoinSplitStep(parts: seq<string>, c: char)
    requires |parts| > 1 && c !in parts[0]
    ensures Split(Join(parts, [c]), c) == [parts[0]] + Split(Join(parts[1..], [c]), c)
  {
    var s := Join(parts, [c]);
    var tail := Join(parts[1..], [c]);
    assert s == parts[0] + [c] + tail;
    assert s[|parts[0]|] == c;
    assert s[..|parts[0]|] == parts[0];
    assert s[|parts[0]| + 1..] == tail;
    assert c in s;
    assert IndexOf(s, c) == |parts[0]|;
  }

  /** Splitting a join of separator-free pieces gives back the pieces. */
  lemma {:induction false} JoinSplit(parts: seq<string>, c: char)
    requires parts != [] && forall k :: 0 <= k < |parts| ==> c !in parts[k]
    ensures Split(Join(parts, [c]), c) == parts
    decreases |parts|
  {
    if |parts| > 1 {
      JoinSplitStep(parts, c);
      JoinSplit(parts[1..], c);
      assert [parts[0]] + parts[1..] == parts;
    }
  }

  predicate HasPrefix(s: string, p: string) {
    |p| <= |s| && s[..|p|] == p
  }

  predicate HasSuffix(s: string, p: string) {
    |p| <= |s| && s[|s| - |p|..] == p
  }

  /** sub occurs in s starting at position i. */
  predicate OccursAt(s: string, sub: string, i: nat) {
    i + |sub| <= |s| && s[i..i + |sub|] == sub
  }

  /** strings.Contains: sub occurs in s at some position. */
  predicate Contains(s: string, sub: string) {
    exists i: nat :: i <= |s| && OccursAt(s, sub, i)
  }

  /** A suffix is an occurrence. */
  lemma SuffixContained(s: string, p: string)
    requires HasSuffix(s, p)
    ensures Contains(s, p)
  {
    assert OccursAt(s, p, |s| - |p|);
  }

  /** An occurrence of a word is an occurrence of each of its prefixes. */
  lemma PrefixContained(s: string, sub: string, n: nat)
    requires Contains(s, sub) && n <= |sub|
    ensures Contains(s, sub[..n])
  {
    var i: nat :| i <= |s| && OccursAt(s, sub, i);
    assert i + |sub| <= |s| && s[i..i + |sub|] == sub;
    assert s[i..i + n] == s[i..i + |sub|][..n];
    assert OccursAt(s, sub[..n], i);
  }

  predicate IsUpper(c: char) { 'A' <= c <= 'Z' }
  predicate IsLower(c: char) { 'a' <= c <= 'z' }
  predicate IsLetter(c: char) { IsUpper(c) || IsLower(c) }
  predicate IsDigit(c: char) { '0' <= c <= '9' }

  function LowerChar(c: char): (d: char)
    ensures IsUpper(c) ==> IsLower(d)
    ensures !IsUpper(c) ==> d == c
  {
    if IsUpper(c) then (c as int + 32) as char else c
  }

  function UpperChar(c: char): (d: char)
    ensures IsLower(c) ==> IsUpper(d) && LowerChar(d) == c
    ensures !IsLower(c) ==> d == c
  {
    if IsLower(c) then (c as int - 32) as char else c
  }

  /** strings.ToLower on ASCII letters: A-Z mapped to a-z, every other byte kept. */
  function Lower(s: string): (r: string)
    ensures |r| == |s| && forall i :: 0 <= i < |s| ==> r[i] == LowerChar(s[i])
  {
    seq(|s|, i requires 0 <= i < |s| => LowerChar(s[i]))
  }

  /** Lowering twice is lowering once. */
  lemma LowerIdempotent(s: string)
    ensures Lower(Lower(s)) == Lower(s)
  {
  }

  /** A byte that ends a word for strings.Title: ASCII other than letters, digits and underscore. */
  predicate IsSeparator(c: char) {
    c < 128 as char && !IsLetter(c) && !IsDigit(c) && c != '_'
  }

  /** strings.Title from a position whose previous byte was a separator (atStart) or not. */
  function TitleFrom(s: string, atStart: bool): (r: string)
    ensures |r| == |s|
    decreases |s|
  {
    if s == [] then []
    else [if atStart then UpperChar(s[0]) else s[0]] + TitleFrom(s[1..], IsSeparator(s[0]))
  }

  /** strings.Title: every letter that begins a word upper-cased. */
  function Title(s: string): (r: string)
    ensures |r| == |s|
  {
    TitleFrom(s, true)
  }

  /** Title only raises letters, so lowering afterwards is lowering the original. */
  lemma {:induction false} LowerTitleFrom(s: string, atStart: bool)
    ensures Lower(TitleFrom(s, atStart)) == Lower(s)
    decreases |s|
  {
    if s != [] {
      LowerTitleFrom(s[1..], IsSeparator(s[0]));
      var r := TitleFrom(s, atStart);
      assert r[1..] == TitleFrom(s[1..], IsSeparator(s[0]));
      forall i | 0 <= i < |s|
        ensures Lower(r)[i] == Lower(s)[i]
      {
        if i > 0 {
          assert r[i] == r[1..][i - 1] && s[i] == s[1..][i - 1];
          assert Lower(r[1..])[i - 1] == Lower(s[1..])[i - 1];
        }
      }
    }
  }

  lemma LowerTitle(s: string)
    ensures Lower(Title(s)) == Lower(s)
  {
    LowerTitleFrom(s, true);
  }

  /** Go's string order: byte-wise lexicographic, a proper prefix first. */
  predicate LexLess(a: string, b: string)
    decreases |a|
  {
    if |a| == 0 then |b| > 0
    else if |b| == 0 then false
    else if a[0] != b[0] then a[0] < b[0]
    else LexLess(a[1..], b[1..])
  }

  lemma {:induction false} LexIrreflexive(a: string)
    ensures !LexLess(a, a)
    decreases |a|
  {
    if |a| > 0 {
      LexIrreflexive(a[1..]);
    }
  }

  lemma {:induction false} LexTransitive(a: string, b: string, c: string)
    requires LexLess(a, b) && LexLess(b, c)
    ensures LexLess(a, c)
    decreases |a|
  {
    if |a| > 0 && a[0] == b[0] && b[0] == c[0] {
      LexTransitive(a[1..], b[1..], c[1..]);
    }
  }

  lemma LexAsymmetric(a: string, b: string)
    requires LexLess(a, b)
    ensures !LexLess(b, a)
  {
    if LexLess(b, a) {
      LexTransitive(a, b, a);
      LexIrreflexive(a);
    }
  }

  /** Any two different strings are ordered one way or the other. */
  lemma {:induction false} LexTotal(a: string, b: string)
    requires a != b
    ensures LexLess(a, b) || LexLess(b, a)
    decreases |a|
  {
    if |a| > 0 && |b| > 0 && a[0] == b[0] {
      assert a == [a[0]] + a[1..] && b == [b[0]] + b[1..];
      LexTotal(a[1..], b[1..]);
    }
  }
}
