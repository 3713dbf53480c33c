/**
 * The JavaScript string primitives the bot relies on: `trim`, `split` on a
 * one-character separator, `join`, and ASCII case conversion.  Strings are
 * sequences of code points.
 */
module Text {

  /** The characters `String.prototype.trim` removes and the regex class `\s` matches. */
  predicate IsWhitespace(c: char) {
    || c == ' ' || c == '\t' || c == '\n' || c == '\r' || c == '\U{000B}' || c == '\U{000C}'
    || c == '\U{00A0}' || c == '\U{1680}' || ('\U{2000}' <= c <= '\U{200A}')
    || c == '\U{2028}' || c == '\U{2029}' || c == '\U{202F}' || c == '\U{205F}'
    || c == '\U{3000}' || c == '\U{FEFF}'
  }

  /** Every character of `s` is white space (the empty string included). */
  predicate IsBlank(s: string) {
    forall i :: 0 <= i < |s| ==> IsWhitespace(s[i])
  }

  /** Drops leading white space: what remains is a suffix that starts with a non-space. */
  function TrimStart(s: string): (r: string)
    ensures |r| <= |s| && r == s[|s| - |r|..]
    ensures r == [] || !IsWhitespace(r[0])
    ensures IsBlank(s[..|s| - |r|])
  {
    if s != [] && IsWhitespace(s[0]) then TrimStart(s[1..]) else s
  }

  /** Drops trailing white space: what remains is a prefix that ends with a non-space. */
  function TrimEnd(s: string): (r: string)
    ensures |r| <= |s| && r == s[..|r|]
    ensures r == [] || !IsWhitespace(r[|r| - 1])
    ensures IsBlank(s[|r|..])
  {
    if s != [] && IsWhitespace(s[|s| - 1]) then TrimEnd(s[..|s| - 1]) else s
  }

  /**
   * `s.trim()`: the slice of `s` left once white space is dropped at both
   * ends; empty exactly when `s` is blank, and otherwise neither starting nor
   * ending with white space.
   */
  function Trim(s: string): (r: string)
    ensures |r| <= |s|
    ensures exists a :: Trimmed(s, r, a)
    ensures r == [] <==> IsBlank(s)
    ensures r != [] ==> !IsWhitespace(r[0]) && !IsWhitespace(r[|r| - 1])
  {
    var t := TrimStart(s);
    TrimEndEmpty(t);
    TrimStartEmpty(s);
    TrimSlice(s);
    TrimEnd(t)
  }

  lemma TrimSlice(s: string)
    ensures Trimmed(s, TrimEnd(TrimStart(s)), |s| - |TrimStart(s)|)
  {
    var t := TrimStart(s);
    var r := TrimEnd(t);
    TrimmedOf(s, t, r);
  }

  /** A blank-led suffix `t` of `s`, cut short to `r` before blank text, is `s` trimmed. */
  lemma TrimmedOf(s: string, t: string, r: string)
    requires |t| <= |s| && t == s[|s| - |t|..] && IsBlank(s[..|s| - |t|])
    requires |r| <= |t| && r == t[..|r|] && IsBlank(t[|r|..])
    ensures Trimmed(s, r, |s| - |t|)
  {
    var a := |s| - |t|;
    assert s[a..][..|r|] == s[a..a + |r|];
    forall i | a + |r| <= i < |s| ensures IsWhitespace(s[i]) {
      assert s[i] == t[|r|..][i - a - |r|];
    }
  }

  /** `r` is `s[a..]` cut short, with only white space before and after it. */
  predicate Trimmed(s: string, r: string, a: int) {
    && 0 <= a && a + |r| <= |s| && r == s[a..a + |r|]
    && IsBlank(s[..a]) && IsBlank(s[a + |r|..])
  }

  lemma TrimStartEmpty(s: string)
    ensures TrimStart(s) == [] <==> IsBlank(s)
  {
    var t := TrimStart(s);
    if t == [] { assert s[..|s|] == s; }
  }

  lemma TrimEndEmpty(t: string)
    requires t == [] || !IsWhitespace(t[0])
    ensures TrimEnd(t) == [] <==> t == []
  {
  }

  /** `s.split(sep)`: the pieces between occurrences of `sep`, empty pieces kept. */
  function Split(s: string, sep: char): (r: seq<string>)
    ensures |r| >= 1
    ensures forall i :: 0 <= i < |r| ==> sep !in r[i]
    ensures Join(r, [sep]) == s
  {
    if s == [] then [[]]
    else
      var rest := Split(s[1..], sep);
      if s[0] == sep then
        JoinCons([], rest, [sep]);
        [[]] + rest
      else
        JoinExtendHead(s[0], rest, [sep]);
        [[s[0]] + rest[0]] + rest[1..]
  }

  /** `parts.join(sep)`; an empty array joins to the empty string. */
  function Join(parts: seq<string>, sep: string): string {
    if |parts| == 0 then []
    else if |parts| == 1 then parts[0]
    else parts[0] + sep + Join(parts[1..], sep)
  }

  lemma JoinCons(head: string, tail: seq<string>, sep: string)
    requires |tail| >= 1
    ensures Join([head] + tail, sep) == head + sep + Join(tail, sep)
  {
    assert ([head] + tail)[1..] == tail;
  }

  lemma JoinExtendHead(c: char, parts: seq<string>, sep: string)
    requires |parts| >= 1
    ensures Join([[c] + parts[0]] + parts[1..], sep) == [c] + Join(parts, sep)
  {
    if |parts| > 1 {
      JoinCons([c] + parts[0], parts[1..], sep);
    }
  }

  /**
   * The pieces of `split` are the only separator-free pieces that join back to
   * the input: splitting a join of separator-free pieces gives the pieces back.
   */
  lemma {:induction false} SplitJoin(parts: seq<string>, sep: char)
    requires |parts| >= 1
    requires forall i :: 0 <= i < |parts| ==> sep !in parts[i]
    ensures Split(Join(parts, [sep]), sep) == parts
  {
    var p := parts[0];
    if |parts| == 1 {
      SplitFree(p, sep);
    } else {
      SplitJoin(parts[1..], sep);
      SplitPrefix(p, Join(parts[1..], [sep]), sep);
      assert parts == [p] + parts[1..];
    }
  }

  /** A separator-free string splits into itself. */
  lemma {:induction false} SplitFree(p: string, sep: char)
    requires sep !in p
    ensures Split(p, sep) == [p]
  {
    if p != [] {
      SplitFree(p[1..], sep);
      assert [p[0]] + p[1..] == p;
    }
  }

  /** A separator-free prefix followed by the separator becomes the first piece. */
  lemma {:induction false} SplitPrefix(p: string, rest: string, sep: char)
    requires sep !in p
    ensures Split(p + [sep] + rest, sep) == [p] + Split(rest, sep)
  {
    if p == [] {
      assert p + [sep] + rest == [sep] + rest;
      assert ([sep] + rest)[1..] == rest;
    } else {
      var s := p + [sep] + rest;
      SplitPrefix(p[1..], rest, sep);
      assert s[0] == p[0] && s[1..] == p[1..] + [sep] + rest;
      var after := Split(s[1..], sep);
      assert after[0] == p[1..] && after[1..] == Split(rest, sep);
      assert [p[0]] + p[1..] == p;
    }
  }

  /** ASCII `toLowerCase` of one character. */
  function LowerChar(c: char): char {
    if 'A' <= c <= 'Z' then (c as int + 32) as char else c
  }

  /** ASCII `toUpperCase` of one character. */
  function UpperChar(c: char): char {
    if 'a' <= c <= 'z' then (c as int - 32) as char else c
  }

  /**
   * `s.toLowerCase()` restricted to ASCII letters: each character is mapped on
   * its own, so no upper-case ASCII letter is left.
   */
  function ToLower(s: string): (r: string)
    ensures |r| == |s|
    ensures forall i :: 0 <= i < |s| ==> r[i] == LowerChar(s[i])
    ensures forall i :: 0 <= i < |r| ==> !('A' <= r[i] <= 'Z')
  {
    if s == [] then [] else [LowerChar(s[0])] + ToLower(s[1..])
  }

  /** Strings concatenated in order, as `array.join('')` does. */
  function Concat(parts: seq<string>): string {
    if parts == [] then [] else parts[0] + Concat(parts[1..])
  }

  /** Concatenation is joining with the empty separator. */
  lemma {:induction false} ConcatJoin(parts: seq<string>)
    ensures Concat(parts) == Join(parts, "")
  {
    if |parts| >= 2 {
      ConcatJoin(parts[1..]);
      JoinCons(parts[0], parts[1..], "");
      assert [parts[0]] + parts[1..] == parts;
    } else if |parts| == 1 {
      assert parts[1..] == [];
    }
  }
}
