/**
  HTML-safe escaping of object keys (escape.go).

  A Go byte string is modelled as a Dafny `string` with one char per byte, so
  the UTF-8 encoding E2 80 A8 of U+2028 is the three chars '\U{E2}', '\U{80}',
  '\U{A8}'.  The escapes produced are the `\uXXXX` forms of section 7 of RFC 8259.
*/
module Escape {

  const Hex: string := "0123456789abcdef"

  const LeadByte: char := '\U{E2}'
  const MidByte: char := '\U{80}'
  const LineSepByte: char := '\U{A8}'      // last byte of U+2028
  const ParaSepByte: char := '\U{A9}'      // last byte of U+2029

  /** The bytes that are unsafe inside HTML: `<`, `>` and `&`. */
  predicate IsHTMLSpecial(c: char) {
    c == '<' || c == '>' || c == '&'
  }

  /** A complete U+2028 or U+2029 encoding starts at index i of s. */
  predicate SeparatorAt(s: string, i: int) {
    0 <= i && i + 2 < |s| && s[i] == LeadByte && s[i + 1] == MidByte &&
    (s[i + 2] == LineSepByte || s[i + 2] == ParaSepByte)
  }

  /** `\u00` followed by the two lower-case hex digits of the byte c. */
  function ByteEscape(c: char): (r: string)
    requires c as int < 256
    ensures |r| == 6
  {
    "\\u00" + [Hex[c as int / 16], Hex[c as int % 16]]
  }

  /** `\u202` followed by the last hex digit of the separator's final byte. */
  function SeparatorEscape(last: char): (r: string)
    requires last == LineSepByte || last == ParaSepByte
    ensures r == (if last == LineSepByte then "\\u2028" else "\\u2029")
  {
    "\\u202" + [Hex[last as int % 16]]
  }

  /** Reference definition of the escaped form of s, scanning from the left. */
  function HTMLEscape(s: string): string
    decreases |s|
  {
    if s == [] then []
    else if IsHTMLSpecial(s[0]) then ByteEscape(s[0]) + HTMLEscape(s[1..])
    else if SeparatorAt(s, 0) then SeparatorEscape(s[2]) + HTMLEscape(s[3..])
    else [s[0]] + HTMLEscape(s[1..])
  }

  /** Continuation bytes of a separator: none of them starts an escape. */
  predicate IsContinuation(c: char) {
    c == MidByte || c == LineSepByte || c == ParaSepByte
  }

  /**
    The loop invariant of AppendHTMLEscape after i bytes: either the bytes
    src[start..i] are pending (copied lazily on the next escape), or a
    separator was just escaped and `start` runs ahead of i over its
    continuation bytes.
  */
  ghost predicate EscapeInv(dst: string, src: string, out: string, start: int, i: int) {
    0 <= i <= |src| && 0 <= start <= |src| &&
    (start <= i ==> out + src[start..i] + HTMLEscape(src[i..]) == dst + HTMLEscape(src)) &&
    (i < start ==>
      start <= i + 2 &&
      (forall k :: i <= k < start ==> IsContinuation(src[k])) &&
      out + HTMLEscape(src[start..]) == dst + HTMLEscape(src))
  }

  /**
    appendHTMLEscape: appends the escaped form of src to dst, scanning src one
    byte at a time and copying unescaped runs in bulk.
  */
  method AppendHTMLEscape(dst: string, src: string) returns (out: string)
    ensures out == dst + HTMLEscape(src)
  {
    out := dst;
    var start := 0;
    for i := 0 to |src|
      invariant EscapeInv(dst, src, out, start, i)
    {
      var c := src[i];
      // The two tests of the source are independent; a special byte is never
      // the lead byte, so testing them as `if ... else if` changes nothing.
      if c == '<' || c == '>' || c == '&' {
        HTMLByteStep(dst, src, out, start, i);
        out := out + src[start..i];
        out := out + ByteEscape(c);
        start := i + 1;
      } else if c == LeadByte && i + 2 < |src| && src[i + 1] == MidByte && (src[i + 2] == LineSepByte || src[i + 2] == ParaSepByte) {
        SeparatorStep(dst, src, out, start, i);
        out := out + src[start..i];
        out := out + SeparatorEscape(src[i + 2]);
        start := i + 3;
      } else {
        PlainStep(dst, src, out, start, i);
      }
    }
    assert src[|src|..] == [];
    out := out + src[start..];
  }

  lemma HTMLByteStep(dst: string, src: string, out: string, start: int, i: int)
    requires EscapeInv(dst, src, out, start, i) && i < |src| && IsHTMLSpecial(src[i])
    ensures start <= i
    ensures EscapeInv(dst, src, out + src[start..i] + ByteEscape(src[i]), i + 1, i + 1)
  {
    assert !IsContinuation(src[i]);
    assert src[i..][1..] == src[i + 1..];
  }

  lemma SeparatorStep(dst: string, src: string, out: string, start: int, i: int)
    requires EscapeInv(dst, src, out, start, i) && SeparatorAt(src, i) && !IsHTMLSpecial(src[i])
    ensures start <= i
    ensures EscapeInv(dst, src, out + src[start..i] + SeparatorEscape(src[i + 2]), i + 3, i + 1)
  {
    assert !IsContinuation(src[i]);
    assert SeparatorAt(src[i..], 0);
    assert src[i..][3..] == src[i + 3..];
  }

  lemma PlainStep(dst: string, src: string, out: string, start: int, i: int)
    requires EscapeInv(dst, src, out, start, i) && i < |src| && !IsHTMLSpecial(src[i]) && !SeparatorAt(src, i)
    ensures EscapeInv(dst, src, out, start, i + 1)
  {
    if start <= i {
      PendingStep(dst, src, out, start, i);
    } else {
      SkipStep(dst, src, out, start, i);
    }
  }

  /** A continuation byte of a separator escaped just before is passed over. */
  lemma SkipStep(dst: string, src: string, out: string, start: int, i: int)
    requires EscapeInv(dst, src, out, start, i) && i < start && i < |src|
    ensures EscapeInv(dst, src, out, start, i + 1)
  {
    if start == i + 1 {
      assert src[start..i + 1] == [];
      assert out + [] == out;
    }
  }

  /** A plain byte joins the pending run. */
  lemma PendingStep(dst: string, src: string, out: string, start: int, i: int)
    requires 0 <= start <= i < |src| && !IsHTMLSpecial(src[i]) && !SeparatorAt(src, i)
    requires out + src[start..i] + HTMLEscape(src[i..]) == dst + HTMLEscape(src)
    ensures out + src[start..i + 1] + HTMLEscape(src[i + 1..]) == dst + HTMLEscape(src)
  {
    PlainCopied(src, i);
    RunSnoc(src, start, i);
    JoinRun(out, src[start..i], src[i], HTMLEscape(src[i + 1..]), dst + HTMLEscape(src));
  }

  /** A byte that is neither special nor a separator's lead is copied as it is. */
  lemma PlainCopied(src: string, i: int)
    requires 0 <= i < |src| && !IsHTMLSpecial(src[i]) && !SeparatorAt(src, i)
    ensures HTMLEscape(src[i..]) == [src[i]] + HTMLEscape(src[i + 1..])
  {
    assert src[i..][1..] == src[i + 1..];
    assert !SeparatorAt(src[i..], 0);
  }

  lemma RunSnoc(src: string, start: int, i: int)
    requires 0 <= start <= i < |src|
    ensures src[start..i + 1] == src[start..i] + [src[i]]
  {
  }

  /** Moving a byte from the front of the rest to the end of the run. */
  lemma JoinRun(out: string, run: string, c: char, rest: string, whole: string)
    requires out + run + ([c] + rest) == whole
    ensures out + (run + [c]) + rest == whole
  {
    assert out + run + ([c] + rest) == out + (run + [c]) + rest;
  }

  // ---------------------------------------------------------------------
  // Properties of the escaped form

  /** Number of `<`, `>` and `&` bytes in s. */
  function CountHTMLSpecial(s: string): nat {
    if s == [] then 0 else (if IsHTMLSpecial(s[0]) then 1 else 0) + CountHTMLSpecial(s[1..])
  }

  /** Number of positions of s at which a complete U+2028/U+2029 encoding starts. */
  function CountSeparators(s: string): nat {
    if s == [] then 0 else (if SeparatorAt(s, 0) then 1 else 0) + CountSeparators(s[1..])
  }

  /** Each escaped HTML byte grows the output by 5, each escaped separator by 3. */
  lemma {:induction false} HTMLEscapeLength(s: string)
    ensures |HTMLEscape(s)| == |s| + 5 * CountHTMLSpecial(s) + 3 * CountSeparators(s)
    decreases |s|
  {
    if s == [] {
    } else if IsHTMLSpecial(s[0]) {
      HTMLEscapeLength(s[1..]);
      assert !SeparatorAt(s, 0);
    } else if SeparatorAt(s, 0) {
      HTMLEscapeLength(s[3..]);
      var s1, s2 := s[1..], s[2..];
      assert s1[1..] == s2 && s2[1..] == s[3..];
      assert !SeparatorAt(s1, 0) && !SeparatorAt(s2, 0);
      assert !IsHTMLSpecial(s1[0]) && !IsHTMLSpecial(s2[0]);
      assert CountSeparators(s1) == CountSeparators(s2) == CountSeparators(s[3..]);
      assert CountHTMLSpecial(s1) == CountHTMLSpecial(s2) == CountHTMLSpecial(s[3..]);
    } else {
      HTMLEscapeLength(s[1..]);
    }
  }

  /** Without a special byte or a separator, escaping copies its input. */
  lemma {:induction false} HTMLEscapeIdentity(s: string)
    requires forall i :: 0 <= i < |s| ==> !IsHTMLSpecial(s[i]) && !SeparatorAt(s, i)
    ensures HTMLEscape(s) == s
    decreases |s|
  {
    if s != [] {
      forall i | 0 <= i < |s[1..]|
        ensures !IsHTMLSpecial(s[1..][i]) && !SeparatorAt(s[1..], i)
      {
        assert !SeparatorAt(s, i + 1);
      }
      HTMLEscapeIdentity(s[1..]);
    }
  }

  /** The escaped form never contains `<`, `>` or `&`. */
  lemma {:induction false} HTMLEscapeIsHTMLSafe(s: string)
    ensures forall c :: c in HTMLEscape(s) ==> !IsHTMLSpecial(c)
    decreases |s|
  {
    if s == [] {
    } else if IsHTMLSpecial(s[0]) {
      HTMLEscapeIsHTMLSafe(s[1..]);
      var hi, lo := s[0] as int / 16, s[0] as int % 16;
      assert hi in {2, 3} && lo in {6, 12, 14};
      assert ByteEscape(s[0]) == ['\\', 'u', '0', '0', Hex[hi], Hex[lo]];
    } else if SeparatorAt(s, 0) {
      HTMLEscapeIsHTMLSafe(s[3..]);
    } else {
      HTMLEscapeIsHTMLSafe(s[1..]);
    }
  }

  /** The byte or separator that a six-byte escape form stands for, if it is one. */
  function DecodeEscape(code: string): (r: string)
    ensures r != [] ==> |code| == 6 && code[0] == '\\'
  {
    if code == "\\u003c" then "<"
    else if code == "\\u003e" then ">"
    else if code == "\\u0026" then "&"
    else if code == "\\u2028" then [LeadByte, MidByte, LineSepByte]
    else if code == "\\u2029" then [LeadByte, MidByte, ParaSepByte]
    else []
  }

  /** Decoder of the escape forms that HTMLEscape produces; every other byte is copied. */
  function HTMLUnescape(t: string): string
    decreases |t|
  {
    if t == [] then []
    else if |t| >= 6 && DecodeEscape(t[..6]) != [] then DecodeEscape(t[..6]) + HTMLUnescape(t[6..])
    else [t[0]] + HTMLUnescape(t[1..])
  }

  lemma UnescapeAfterEscape(code: string, plain: string, rest: string)
    requires |code| == 6 && DecodeEscape(code) == plain && plain != []
    ensures HTMLUnescape(code + rest) == plain + HTMLUnescape(rest)
  {
    var t := code + rest;
    assert t[..6] == code && t[6..] == rest;
  }

  lemma UnescapeAfterPlain(c: char, rest: string)
    requires c != '\\'
    ensures HTMLUnescape([c] + rest) == [c] + HTMLUnescape(rest)
  {
    var t := [c] + rest;
    assert t[0] == c && t[1..] == rest;
    if |t| >= 6 {
      assert t[..6][0] == c;
    }
  }

  /** The escape of each HTML byte, spelled out. */
  lemma SpecialEscapes(c: char)
    requires IsHTMLSpecial(c)
    ensures ByteEscape(c) == (if c == '<' then "\\u003c" else if c == '>' then "\\u003e" else "\\u0026")
    ensures DecodeEscape(ByteEscape(c)) == [c]
  {
  }

  lemma SpecialRoundTrip(s: string)
    requires s != [] && IsHTMLSpecial(s[0]) && HTMLUnescape(HTMLEscape(s[1..])) == s[1..]
    ensures HTMLUnescape(HTMLEscape(s)) == s
  {
    SpecialEscapes(s[0]);
    UnescapeAfterEscape(ByteEscape(s[0]), [s[0]], HTMLEscape(s[1..]));
    assert [s[0]] + s[1..] == s;
  }

  lemma SeparatorRoundTrip(s: string)
    requires SeparatorAt(s, 0) && HTMLUnescape(HTMLEscape(s[3..])) == s[3..]
    ensures HTMLUnescape(HTMLEscape(s)) == s
  {
    assert !IsHTMLSpecial(s[0]);
    UnescapeAfterEscape(SeparatorEscape(s[2]), s[..3], HTMLEscape(s[3..]));
    assert s[..3] + s[3..] == s;
  }

  lemma PlainRoundTrip(s: string)
    requires s != [] && s[0] != '\\' && !IsHTMLSpecial(s[0]) && !SeparatorAt(s, 0)
    requires HTMLUnescape(HTMLEscape(s[1..])) == s[1..]
    ensures HTMLUnescape(HTMLEscape(s)) == s
  {
    UnescapeAfterPlain(s[0], HTMLEscape(s[1..]));
    assert [s[0]] + s[1..] == s;
  }

  /** Escaping loses nothing: a key without a backslash is recovered from its escaped form. */
  lemma {:induction false} HTMLEscapeRoundTrip(s: string)
    requires '\\' !in s
    ensures HTMLUnescape(HTMLEscape(s)) == s
    decreases |s|
  {
    if s == [] {
    } else if IsHTMLSpecial(s[0]) {
      HTMLEscapeRoundTrip(s[1..]);
      SpecialRoundTrip(s);
    } else if SeparatorAt(s, 0) {
      HTMLEscapeRoundTrip(s[3..]);
      SeparatorRoundTrip(s);
    } else {
      HTMLEscapeRoundTrip(s[1..]);
      PlainRoundTrip(s);
    }
  }

  /** The exact escape forms of the HTML bytes. */
  lemma HTMLEscapeByteForms()
    ensures HTMLEscape("<") == "\\u003c" && HTMLEscape(">") == "\\u003e" && HTMLEscape("&") == "\\u0026"
  {
    assert HTMLEscape([]) == [];
    assert "<"[1..] == [] && ">"[1..] == [] && "&"[1..] == [];
  }

  /** The exact escape forms of the separators, and a truncated separator left as it is. */
  lemma HTMLEscapeSeparatorForms()
    ensures HTMLEscape([LeadByte, MidByte, LineSepByte]) == "\\u2028"
    ensures HTMLEscape([LeadByte, MidByte, ParaSepByte]) == "\\u2029"
    ensures HTMLEscape([LeadByte, MidByte]) == [LeadByte, MidByte]
  {
    assert HTMLEscape([]) == [];
    assert [LeadByte, MidByte][1..] == [MidByte] && [MidByte][1..] == [];
    assert [LeadByte, MidByte, LineSepByte][3..] == [];
    assert [LeadByte, MidByte, ParaSepByte][3..] == [];
  }
}
