/**
 * The pure string helpers of the `ai` command (commands/ai.js): bold
 * formatting of `*…*` spans, chunking of long replies, extraction of the reply
 * text from the chat service's response body, and the search for a generated
 * image URL in a reply.  Each regular expression of the source is written as
 * the scanner it denotes.
 */
module AiText {
  import opened Wrappers
  import opened Text

  // ---------------------------------------------------------------- formatBold

  /** The characters the regex `.` does not match. */
  predicate IsLineTerminator(c: char) {
    c == '\n' || c == '\r' || c == '\U{2028}' || c == '\U{2029}'
  }

  /** `s[i..j+1]` is a match of `\*(.+?)\*` if nothing closed it earlier: both ends `*`, a non-empty line between. */
  predicate IsPair(s: string, i: int, j: int) {
    && 0 <= i && i + 2 <= j < |s|
    && s[i] == '*' && s[j] == '*'
    && forall q :: i < q < j ==> !IsLineTerminator(s[q])
  }

  /** Some span of `s` has the shape of a bold pair. */
  ghost predicate HasPair(s: string) {
    exists i, j :: IsPair(s, i, j)
  }

  /** The lazy scan for the closing `*`, from position `p` on. */
  function CloseFrom(s: string, p: nat): (r: Option<nat>)
    requires 2 <= p <= |s| && s[0] == '*'
    requires forall q :: 0 < q < p ==> !IsLineTerminator(s[q])
    ensures r.Some? ==> p <= r.value && IsPair(s, 0, r.value) && forall j :: p <= j < r.value ==> s[j] != '*'
    ensures r.None? ==> forall j :: p <= j ==> !IsPair(s, 0, j)
    decreases |s| - p
  {
    if p == |s| then None
    else if s[p] == '*' then Some(p)
    else if IsLineTerminator(s[p]) then None
    else CloseFrom(s, p + 1)
  }

  /** Where the pair opened by `s[0]` closes: the nearest `*` that makes a pair. */
  function Close(s: string): (r: Option<nat>)
    ensures r.Some? ==> IsPair(s, 0, r.value) && forall j :: IsPair(s, 0, j) ==> r.value <= j
    ensures r.None? ==> forall j :: !IsPair(s, 0, j)
  {
    if |s| >= 2 && s[0] == '*' && !IsLineTerminator(s[1]) then CloseFrom(s, 2) else None
  }

  predicate IsAsciiAlnum(c: char) {
    'a' <= c <= 'z' || 'A' <= c <= 'Z' || '0' <= c <= '9'
  }

  /**
   * One character inside a pair: ASCII letters and digits move to the
   * Mathematical Bold letters and digits, in alphabet order; anything else is kept.
   */
  function BoldChar(c: char): (b: char)
    ensures 'a' <= c <= 'z' ==> b as int == 0x1D41A + (c as int - 'a' as int)
    ensures 'A' <= c <= 'Z' ==> b as int == 0x1D400 + (c as int - 'A' as int)
    ensures '0' <= c <= '9' ==> b as int == 0x1D7CE + (c as int - '0' as int)
    ensures !IsAsciiAlnum(c) ==> b == c
  {
    if 'a' <= c <= 'z' then (c as int + 0x1D41A - 97) as char
    else if 'A' <= c <= 'Z' then (c as int + 0x1D400 - 65) as char
    else if '0' <= c <= '9' then (c as int + 0x1D7CE - 48) as char
    else c
  }

  /** A character is changed exactly when it is an ASCII letter or digit, and distinct ones stay distinct. */
  lemma BoldCharSpec(c: char, d: char)
    ensures BoldChar(c) == c <==> !IsAsciiAlnum(c)
    ensures IsAsciiAlnum(c) ==> 0x1D400 <= BoldChar(c) as int <= 0x1D7D7
    ensures IsAsciiAlnum(c) && IsAsciiAlnum(d) && BoldChar(c) == BoldChar(d) ==> c == d
  {
  }

  /** The replacement of one pair's inner text. */
  function BoldWord(w: string): (r: string)
    ensures |r| == |w|
    ensures forall i :: 0 <= i < |w| ==> r[i] == BoldChar(w[i])
  {
    if w == [] then [] else [BoldChar(w[0])] + BoldWord(w[1..])
  }

  /** `formatBold(text)`: every `*…*` pair found left to right is replaced by its bold inner text. */
  function FormatBold(s: string): (r: string)
    ensures |r| <= |s|
    decreases |s|
  {
    if s == [] then []
    else match Close(s)
      case Some(j) => BoldWord(s[1..j]) + FormatBold(s[j + 1..])
      case None => [s[0]] + FormatBold(s[1..])
  }

  /** A character that does not open a pair is copied. */
  lemma FormatBoldCopies(c: char, rest: string)
    requires Close([c] + rest).None?
    ensures FormatBold([c] + rest) == [c] + FormatBold(rest)
  {
    assert ([c] + rest)[1..] == rest;
  }

  /**
   * A pair is replaced by its bold inner text, dropping both asterisks.  The
   * inner text may itself start with `*`, as in `**bold**`: the lazy match
   * then closes at the next star.
   */
  lemma FormatBoldPair(w: string, rest: string)
    requires w != [] && '*' !in w[1..]
    requires forall q :: 0 <= q < |w| ==> !IsLineTerminator(w[q])
    ensures FormatBold(['*'] + w + ['*'] + rest) == BoldWord(w) + FormatBold(rest)
  {
    var s := ['*'] + w + ['*'] + rest;
    var j := |w| + 1;
    assert s[j] == '*';
    forall q | 0 < q < j ensures !IsLineTerminator(s[q]) {
      assert s[q] == w[q - 1];
    }
    assert IsPair(s, 0, j);
    forall k | 2 <= k < j ensures s[k] != '*' {
      assert s[k] == w[1..][k - 2];
    }
    assert Close(s) == Some(j);
    assert s[1..j] == w;
    assert s[j + 1..] == rest;
  }

  /** Text is left unchanged by `formatBold` exactly when it holds no pair. */
  lemma FormatBoldUnchanged(s: string)
    ensures FormatBold(s) == s <==> !HasPair(s)
  {
    if HasPair(s) {
      FormatBoldShortens(s);
    } else {
      FormatBoldNoPair(s);
    }
  }

  lemma {:induction false} FormatBoldNoPair(s: string)
    requires !HasPair(s)
    ensures FormatBold(s) == s
    decreases |s|
  {
    if s != [] {
      assert Close(s).None?;
      assert !HasPair(s[1..]) by {
        forall i, j | IsPair(s[1..], i, j) ensures false {
          assert IsPair(s, i + 1, j + 1);
        }
      }
      FormatBoldNoPair(s[1..]);
    }
  }

  lemma {:induction false} FormatBoldShortens(s: string)
    requires HasPair(s)
    ensures |FormatBold(s)| < |s|
    decreases |s|
  {
    var i, j :| IsPair(s, i, j);
    if Close(s).None? {
      assert i > 0;
      assert IsPair(s[1..], i - 1, j - 1);
      FormatBoldShortens(s[1..]);
    }
  }

  // -------------------------------------------------------------- chunkMessage

  /** The chunk size the reply is sent in. */
  const MaxChunk: nat := 1900

  function Min(a: int, b: int): int {
    if a <= b then a else b
  }

  /** `Math.ceil(a / b)`: the least `q` with `q * b >= a`. */
  function CeilDiv(a: nat, b: nat): (q: nat)
    requires b > 0
    ensures q * b >= a
    ensures a > 0 ==> (q - 1) * b < a
    ensures q == 0 <==> a == 0
    decreases a
  {
    if a == 0 then 0
    else if a <= b then 1
    else
      var q' := CeilDiv(a - b, b);
      assert (q' + 1) * b == q' * b + b;
      q' + 1
  }

  /** The bounds of chunk `i` of `n` over a text of length `len`. */
  lemma ChunkBounds(len: nat, m: nat, i: nat)
    requires m > 0 && i < CeilDiv(len, m)
    ensures i * m < len
    ensures (i + 1) * m == i * m + m
    ensures i < CeilDiv(len, m) - 1 ==> (i + 1) * m < len
    ensures i == CeilDiv(len, m) - 1 ==> len <= (i + 1) * m
  {
    var n := CeilDiv(len, m);
    MulMono(i, n - 1, m);
    if i < n - 1 {
      MulMono(i + 1, n - 1, m);
    }
  }

  lemma MulMono(x: nat, y: nat, m: nat)
    requires x <= y
    ensures x * m <= y * m
  {
  }

  /** `chunkMessage(text, maxSize)`: `ceil(|text| / maxSize)` slices, none longer than `maxSize`. */
  function ChunkMessage(text: string, maxSize: nat): (r: seq<string>)
    requires maxSize > 0
    ensures |r| == CeilDiv(|text|, maxSize)
  {
    var n := CeilDiv(|text|, maxSize);
    seq(n, i requires 0 <= i < n =>
      ChunkBounds(|text|, maxSize, i);
      text[i * maxSize .. Min((i + 1) * maxSize, |text|)])
  }

  /**
   * There are `ceil(|text| / maxSize)` chunks (none for empty text); each has
   * exactly `maxSize` characters except the last, which has between one and
   * `maxSize`.
   */
  lemma ChunkSizes(text: string, maxSize: nat)
    requires maxSize > 0
    ensures var chunks := ChunkMessage(text, maxSize);
      && |chunks| == CeilDiv(|text|, maxSize)
      && (text == [] <==> chunks == [])
      && (forall i :: 0 <= i < |chunks| ==> 0 < |chunks[i]| <= maxSize)
      && (forall i :: 0 <= i < |chunks| - 1 ==> |chunks[i]| == maxSize)
  {
    var chunks := ChunkMessage(text, maxSize);
    forall i | 0 <= i < |chunks| ensures 0 < |chunks[i]| <= maxSize && (i < |chunks| - 1 ==> |chunks[i]| == maxSize) {
      ChunkBounds(|text|, maxSize, i);
    }
  }

  /** The first chunk, then the chunks of the rest. */
  lemma ChunkStep(text: string, m: nat)
    requires m > 0 && text != []
    ensures var k := Min(m, |text|);
      ChunkMessage(text, m) == [text[..k]] + ChunkMessage(text[k..], m)
  {
    var k := Min(m, |text|);
    var rest := text[k..];
    var c, c' := ChunkMessage(text, m), ChunkMessage(rest, m);
    if |text| <= m {
      assert |c| == 1 && c' == [];
    } else {
      assert |c| == |c'| + 1;
      forall i | 1 <= i < |c| ensures c[i] == c'[i - 1] {
        ChunkShift(text, m, i);
      }
    }
    assert c == [text[..k]] + c';
  }

  /** Chunk `i` of the text is chunk `i - 1` of what follows the first chunk. */
  lemma ChunkShift(text: string, m: nat, i: nat)
    requires m > 0 && m < |text| && 1 <= i < CeilDiv(|text|, m)
    ensures i - 1 < CeilDiv(|text| - m, m)
    ensures ChunkMessage(text, m)[i] == ChunkMessage(text[m..], m)[i - 1]
  {
    var rest := text[m..];
    CeilDivStep(|text|, m);
    var k := i - 1;
    MulSucc(k, m);
    MulSucc(i, m);
    ChunkAt(text, m, i);
    ChunkAt(rest, m, k);
    var x, y, z := k * m, i * m, (i + 1) * m;
    MulMono(0, k, m);
    SliceShift(text, m, x, y, z);
  }

  lemma CeilDivStep(a: nat, b: nat)
    requires 0 < b < a
    ensures CeilDiv(a, b) == CeilDiv(a - b, b) + 1
  {
  }

  lemma MulSucc(k: nat, m: nat)
    ensures (k + 1) * m == k * m + m
  {
  }

  lemma ChunkAt(text: string, m: nat, i: nat)
    requires m > 0 && i < CeilDiv(|text|, m)
    ensures i * m < |text|
    ensures ChunkMessage(text, m)[i] == text[i * m .. Min((i + 1) * m, |text|)]
  {
    ChunkBounds(|text|, m, i);
  }

  lemma SliceShift(text: string, m: nat, x: nat, y: nat, z: nat)
    requires m <= |text| && x <= |text| - m && y == x + m && z == y + m
    ensures text[m..][x..Min(y, |text| - m)] == text[y..Min(z, |text|)]
  {
  }

  /** The chunks concatenate back to the text, so no character is lost or reordered. */
  lemma {:induction false} ChunksConcat(text: string, m: nat)
    requires m > 0
    ensures Concat(ChunkMessage(text, m)) == text
    decreases |text|
  {
    if text != [] {
      var k := Min(m, |text|);
      ChunkStep(text, m);
      ChunksConcat(text[k..], m);
      assert ([text[..k]] + ChunkMessage(text[k..], m))[1..] == ChunkMessage(text[k..], m);
      assert text[..k] + text[k..] == text;
    }
  }

  // ------------------------------------------------------------ parseResponse

  /** The pattern `"result":"([^"]*)"` up to its capture. */
  const ResultMarker: string := "\"result\":\""

  /** The pattern `0:"([^"]*)"` up to its capture. */
  const InlineMarker: string := "0:\""

  /** The first `"` at or after `p`, or `|s|`. */
  function QuoteFrom(s: string, p: nat): (r: nat)
    requires p <= |s|
    ensures p <= r <= |s|
    ensures r < |s| ==> s[r] == '"'
    ensures forall q :: p <= q < r ==> s[q] != '"'
    decreases |s| - p
  {
    if p == |s| || s[p] == '"' then p else QuoteFrom(s, p + 1)
  }

  /** The captures of `marker([^"]*)"` over `s`, left to right, as `matchAll` finds them. */
  function Captures(s: string, marker: string): (r: seq<string>)
    requires marker != []
    ensures forall i :: 0 <= i < |r| ==> '"' !in r[i]
    decreases |s|
  {
    if |s| < |marker| then []
    else if s[..|marker|] == marker && QuoteFrom(s, |marker|) < |s| then
      var q := QuoteFrom(s, |marker|);
      [s[|marker|..q]] + Captures(s[q + 1..], marker)
    else Captures(s[1..], marker)
  }

  /** `marker` + piece + `"` for each piece: the shape the captures are read from. */
  function Render(pieces: seq<string>, marker: string): string {
    if pieces == [] then [] else marker + pieces[0] + "\"" + Render(pieces[1..], marker)
  }

  /** One rendered piece is captured, and the scan resumes after its closing quote. */
  lemma CapturesStep(p: string, rest: string, marker: string)
    requires marker != [] && '"' !in p
    ensures Captures(marker + p + "\"" + rest, marker) == [p] + Captures(rest, marker)
  {
    var s := marker + p + "\"" + rest;
    var q := |marker| + |p|;
    assert s[..|marker|] == marker;
    assert s[q] == '"';
    forall k | |marker| <= k < q ensures s[k] != '"' {
      assert s[k] == p[k - |marker|];
    }
    assert QuoteFrom(s, |marker|) == q;
    assert s[|marker|..q] == p;
    assert s[q + 1..] == rest;
  }

  /** Pieces rendered with the marker are captured back, in order, before whatever follows. */
  lemma {:induction false} CapturesRender(pieces: seq<string>, tail: string, marker: string)
    requires marker != []
    requires forall i :: 0 <= i < |pieces| ==> '"' !in pieces[i]
    ensures Captures(Render(pieces, marker) + tail, marker) == pieces + Captures(tail, marker)
  {
    if pieces != [] {
      var p, others := pieces[0], pieces[1..];
      var r := Render(others, marker);
      RenderCons(p, r, tail, marker);
      CapturesStep(p, r + tail, marker);
      CapturesRender(others, tail, marker);
      SeqAssoc([p], others, Captures(tail, marker));
      assert [p] + others == pieces;
    } else {
      assert Render(pieces, marker) + tail == tail;
    }
  }

  /** Regrouping one rendered piece in front of the rest and the tail. */
  lemma RenderCons(p: string, r: string, tail: string, marker: string)
    ensures marker + p + "\"" + r + tail == marker + p + "\"" + (r + tail)
  {
  }

  lemma SeqAssoc<T>(a: seq<T>, b: seq<T>, c: seq<T>)
    ensures (a + b) + c == a + (b + c)
  {
  }

  /** A text missing one of the marker's characters holds no capture of it. */
  lemma {:induction false} CapturesMissingChar(s: string, marker: string, c: char)
    requires marker != [] && c in marker && c !in s
    ensures Captures(s, marker) == []
    decreases |s|
  {
    if |s| >= |marker| {
      assert s[..|marker|] != marker by {
        var k :| 0 <= k < |marker| && marker[k] == c;
        assert s[..|marker|][k] != c;
      }
      CapturesMissingChar(s[1..], marker, c);
    }
  }

  /**
   * `.replace(/\\n/g, '\n')`: each backslash followed by `n` becomes a newline;
   * text without a backslash is left as it is.
   */
  function Unescape(s: string): (r: string)
    ensures |r| <= |s|
    ensures forall c :: c in r && c != '\n' ==> c in s
    ensures '\\' !in s ==> r == s
  {
    if |s| >= 2 && s[0] == '\\' && s[1] == 'n' then ['\n'] + Unescape(s[2..])
    else if s == [] then []
    else [s[0]] + Unescape(s[1..])
  }

  /** The encoding the service applies: each newline written as backslash, `n`. */
  function Escape(t: string): string {
    if t == [] then []
    else if t[0] == '\n' then ['\\', 'n'] + Escape(t[1..])
    else [t[0]] + Escape(t[1..])
  }

  /** No backslash in `t` is followed by `n`, so `\n` in an encoding can only mean a newline. */
  predicate NoEscapeLike(t: string) {
    forall i :: 0 <= i < |t| - 1 && t[i] == '\\' ==> t[i + 1] != 'n'
  }

  /** Unescaping undoes the encoding of any text without a literal backslash-`n`. */
  lemma {:induction false} UnescapeEscape(t: string)
    requires NoEscapeLike(t)
    ensures Unescape(Escape(t)) == t
  {
    if t != [] {
      assert NoEscapeLike(t[1..]) by {
        forall i | 0 <= i < |t[1..]| - 1 && t[1..][i] == '\\' ensures t[1..][i + 1] != 'n' {
          assert t[i + 1] == '\\';
        }
      }
      UnescapeEscape(t[1..]);
      var e := Escape(t);
      if t[0] == '\n' {
        assert e[2..] == Escape(t[1..]);
      } else {
        assert e[1..] == Escape(t[1..]);
        if t[0] == '\\' && |t| >= 2 {
          assert e[1] != 'n';
        }
      }
    }
  }

  /** The unescaped captures, concatenated. */
  function JoinUnescaped(parts: seq<string>): (r: string)
    ensures (forall i :: 0 <= i < |parts| ==> '"' !in parts[i]) ==> '"' !in r
  {
    if parts == [] then [] else Unescape(parts[0]) + JoinUnescaped(parts[1..])
  }

  /**
   * `parseResponse(data)`: the `"result":"…"` captures if there are any, else
   * the `0:"…"` captures, unescaped and concatenated; never holds a `"`.
   */
  function ParseResponse(data: string): (r: string)
    ensures '"' !in r
  {
    var results := Captures(data, ResultMarker);
    if results != [] then JoinUnescaped(results) else JoinUnescaped(Captures(data, InlineMarker))
  }

  /** `marker` occurs in `s` starting at `p`. */
  predicate MarkerAt(s: string, p: int, marker: string) {
    0 <= p && p + |marker| <= |s| && s[p..p + |marker|] == marker
  }

  /** Text no match can start in is passed over: the captures are those of what follows it. */
  lemma {:induction false} CapturesSkip(pre: string, s: string, marker: string)
    requires marker != []
    requires forall p :: 0 <= p < |pre| ==> !MarkerAt(pre + s, p, marker)
    ensures Captures(pre + s, marker) == Captures(s, marker)
    decreases |pre|
  {
    if pre != [] {
      var t := pre + s;
      assert !MarkerAt(t, 0, marker);
      if |t| >= |marker| {
        assert t[..|marker|] == t[0..|marker|];
        assert Captures(t, marker) == Captures(t[1..], marker);
      } else {
        assert Captures(s, marker) == [];
      }
      assert t[1..] == pre[1..] + s;
      forall p | 0 <= p < |pre[1..]| ensures !MarkerAt(pre[1..] + s, p, marker) {
        assert !MarkerAt(t, p + 1, marker);
        if p + |marker| <= |pre[1..] + s| {
          assert (pre[1..] + s)[p..p + |marker|] == t[p + 1..p + 1 + |marker|];
        }
      }
      CapturesSkip(pre[1..], s, marker);
    } else {
      assert pre + s == s;
    }
  }

  /** No `"result":"` starts inside quote-free text, since the pattern opens with a quote. */
  lemma QuoteFreeSkipResult(pre: string, s: string)
    requires '"' !in pre
    ensures Captures(pre + s, ResultMarker) == Captures(s, ResultMarker)
  {
    forall p | 0 <= p < |pre| ensures !MarkerAt(pre + s, p, ResultMarker) {
      if p + |ResultMarker| <= |pre + s| {
        assert (pre + s)[p..p + |ResultMarker|][0] == pre[p];
      }
    }
    CapturesSkip(pre, s, ResultMarker);
  }

  /**
   * No `0:"` starts inside quote-free text followed by text that does not
   * open with `"` or `:`.
   */
  lemma QuoteFreeSkipInline(pre: string, s: string)
    requires '"' !in pre
    requires s == [] || (s[0] != '"' && s[0] != ':')
    ensures Captures(pre + s, InlineMarker) == Captures(s, InlineMarker)
  {
    var t := pre + s;
    forall p | 0 <= p < |pre| ensures !MarkerAt(t, p, InlineMarker) {
      if p + 3 <= |t| {
        var w := t[p..p + 3];
        if p + 2 < |pre| {
          assert w[2] == pre[p + 2];
        } else if p + 2 == |pre| {
          assert w[2] == s[0];
        } else {
          assert w[1] == s[0];
        }
      }
    }
    CapturesSkip(pre, s, InlineMarker);
  }

  /** Every part is free of `"`. */
  predicate QuoteFree(parts: seq<string>) {
    forall i :: 0 <= i < |parts| ==> '"' !in parts[i]
  }

  /**
   * Quote-free `fills` around and between rendered pieces:
   * `fills[0] marker pieces[0] " fills[1] … marker pieces[n-1] " fills[n]`.
   */
  function Interleave(fills: seq<string>, pieces: seq<string>, marker: string): string
    requires |fills| == |pieces| + 1
  {
    if pieces == [] then fills[0]
    else fills[0] + marker + pieces[0] + "\"" + Interleave(fills[1..], pieces[1..], marker)
  }

  /** A quote-free fill and then one rendered piece: the piece is captured, then the scan resumes. */
  lemma FillThenPiece(f: string, p: string, rest: string, marker: string)
    requires marker == ResultMarker || marker == InlineMarker
    requires '"' !in f && '"' !in p
    ensures Captures(f + marker + p + "\"" + rest, marker) == [p] + Captures(rest, marker)
  {
    var s := marker + p + "\"" + rest;
    assert f + marker + p + "\"" + rest == f + s;
    if marker == ResultMarker {
      QuoteFreeSkipResult(f, s);
    } else {
      assert s[0] == '0';
      QuoteFreeSkipInline(f, s);
    }
    CapturesStep(p, rest, marker);
  }

  /** Both patterns read back exactly the pieces rendered among quote-free text. */
  lemma {:induction false} CapturesInterleave(fills: seq<string>, pieces: seq<string>, marker: string)
    requires marker == ResultMarker || marker == InlineMarker
    requires |fills| == |pieces| + 1 && QuoteFree(fills) && QuoteFree(pieces)
    ensures Captures(Interleave(fills, pieces, marker), marker) == pieces
  {
    assert '"' !in fills[0];
    if pieces == [] {
      assert marker[|marker| - 1] == '"';
      CapturesMissingChar(fills[0], marker, '"');
    } else {
      assert '"' !in pieces[0];
      FillThenPiece(fills[0], pieces[0], Interleave(fills[1..], pieces[1..], marker), marker);
      CapturesInterleave(fills[1..], pieces[1..], marker);
      assert [pieces[0]] + pieces[1..] == pieces;
    }
  }

  /** With no match at its first position, the scan moves on by one character. */
  lemma CapturesPass(u: string, marker: string)
    requires marker != [] && u != []
    requires |u| >= |marker| ==> u[..|marker|] != marker
    ensures Captures(u, marker) == Captures(u[1..], marker)
  {
  }

  /**
   * The quote opening a fragment starts no `"result":"`: it is followed by the
   * quote-free fragment, its closing quote, a quote-free fill and then `0` or the end.
   */
  lemma OpeningQuoteNoResult(p: string, rest: string, g: string, m: string)
    requires '"' !in p && '"' !in g && (m == [] || m[0] == '0') && rest == g + m
    ensures var u := "\"" + p + ("\"" + rest); |u| >= |ResultMarker| ==> u[..|ResultMarker|] != ResultMarker
  {
    var u := "\"" + p + ("\"" + rest);
    if |u| >= |ResultMarker| {
      var w := u[..|ResultMarker|];
      if |p| > 6 {
        assert w[7] == p[6];
      } else if |p| < 6 {
        assert w[|p| + 1] == '"';
      } else if |g| >= 2 {
        assert w[9] == rest[1] == g[1];
      } else if |g| == 1 {
        assert w[9] == rest[1] == m[0];
      } else {
        assert w[8] == rest[0] == m[0];
      }
    }
  }

  /** Nor does the quote closing a fragment, followed by a quote-free fill and then `0` or the end. */
  lemma ClosingQuoteNoResult(rest: string, g: string, m: string)
    requires '"' !in g && (m == [] || m[0] == '0') && rest == g + m
    ensures var v := "\"" + rest; |v| >= |ResultMarker| ==> v[..|ResultMarker|] != ResultMarker
  {
    var v := "\"" + rest;
    if |v| >= |ResultMarker| {
      var w := v[..|ResultMarker|];
      if |g| >= 7 {
        assert w[7] == rest[6] == g[6];
      } else {
        assert w[|g| + 1] == rest[|g|] == m[0];
      }
    }
  }

  /** The scan passes over a closing quote followed by a fill and then `0` or the end. */
  lemma ClosingQuoteSkip(rest: string, g: string, m: string)
    requires '"' !in g && (m == [] || m[0] == '0') && rest == g + m
    ensures Captures("\"" + rest, ResultMarker) == Captures(rest, ResultMarker)
  {
    ClosingQuoteNoResult(rest, g, m);
    CapturesPass("\"" + rest, ResultMarker);
    assert ("\"" + rest)[1..] == rest;
  }

  /** The scan passes over a whole quoted fragment followed by a fill and then `0` or the end. */
  lemma QuotedFragmentSkip(p: string, rest: string, g: string, m: string)
    requires '"' !in p && '"' !in g && (m == [] || m[0] == '0') && rest == g + m
    ensures Captures("\"" + p + ("\"" + rest), ResultMarker) == Captures(rest, ResultMarker)
  {
    var v := "\"" + rest;
    var u := "\"" + p + v;
    OpeningQuoteNoResult(p, rest, g, m);
    CapturesPass(u, ResultMarker);
    assert u[1..] == p + v;
    QuoteFreeSkipResult(p, v);
    ClosingQuoteSkip(rest, g, m);
  }

  /** A fill, one fragment and the next fill's start: no `"result":"` begins before that fill. */
  lemma InlineFragmentNoResult(f: string, p: string, rest: string, g: string, m: string)
    requires '"' !in f && '"' !in p && '"' !in g && (m == [] || m[0] == '0') && rest == g + m
    ensures Captures(f + InlineMarker + p + "\"" + rest, ResultMarker) == Captures(rest, ResultMarker)
  {
    var u := "\"" + p + ("\"" + rest);
    assert f + InlineMarker + p + "\"" + rest == (f + "0:") + u;
    QuoteFreeSkipResult(f + "0:", u);
    QuotedFragmentSkip(p, rest, g, m);
  }

  /**
   * Inline fragments among quote-free text never form `"result":"`: every
   * quote there opens or closes a fragment.
   */
  lemma {:induction false} InlineHoldsNoResult(fills: seq<string>, pieces: seq<string>)
    requires |fills| == |pieces| + 1 && QuoteFree(fills) && QuoteFree(pieces)
    ensures Captures(Interleave(fills, pieces, InlineMarker), ResultMarker) == []
  {
    assert '"' !in fills[0];
    if pieces == [] {
      CapturesMissingChar(fills[0], ResultMarker, '"');
    } else {
      assert '"' !in pieces[0] && '"' !in fills[1];
      var rest := Interleave(fills[1..], pieces[1..], InlineMarker);
      var m: string := if pieces[1..] == [] then [] else InlineMarker + pieces[1] + "\"" + Interleave(fills[2..], pieces[2..], InlineMarker);
      assert rest == fills[1] + m by {
        if pieces[1..] != [] {
          assert fills[1..][1..] == fills[2..] && pieces[1..][1..] == pieces[2..];
        }
      }
      InlineFragmentNoResult(fills[0], pieces[0], rest, fills[1], m);
      InlineHoldsNoResult(fills[1..], pieces[1..]);
    }
  }

  /**
   * A structured result comes first: text after it, inline fragments
   * included, is read only for further results.
   */
  lemma ParseResponseResultFirst(pre: string, piece: string, tail: string)
    requires '"' !in pre && '"' !in piece
    ensures ParseResponse(pre + Render([piece], ResultMarker) + tail)
         == Unescape(piece) + JoinUnescaped(Captures(tail, ResultMarker))
  {
    var s := Render([piece], ResultMarker) + tail;
    assert pre + Render([piece], ResultMarker) + tail == pre + s;
    QuoteFreeSkipResult(pre, s);
    CapturesRender([piece], tail, ResultMarker);
  }

  /** Structured results among quote-free text are read back in order and concatenated. */
  lemma ParseResponseResults(fills: seq<string>, pieces: seq<string>)
    requires |fills| == |pieces| + 1 && QuoteFree(fills) && QuoteFree(pieces) && pieces != []
    ensures ParseResponse(Interleave(fills, pieces, ResultMarker)) == JoinUnescaped(pieces)
  {
    CapturesInterleave(fills, pieces, ResultMarker);
  }

  /**
   * Inline fragments among quote-free text are read back in order and
   * concatenated; with none, the answer is empty.
   */
  lemma ParseResponseInline(fills: seq<string>, pieces: seq<string>)
    requires |fills| == |pieces| + 1 && QuoteFree(fills) && QuoteFree(pieces)
    ensures ParseResponse(Interleave(fills, pieces, InlineMarker)) == JoinUnescaped(pieces)
  {
    InlineHoldsNoResult(fills, pieces);
    CapturesInterleave(fills, pieces, InlineMarker);
  }

  // -------------------------------------------------------- handleImageResponse

  /** The fixed part of `/https:\/\/storage\.googleapis\.com\/chipp-images\/[^\s")]+/`. */
  const ImageHost: string := "https://storage.googleapis.com/chipp-images/"

  /** The characters `[^\s")]` admits. */
  predicate UrlChar(c: char) {
    !IsWhitespace(c) && c != '"' && c != ')'
  }

  /** A match of the image pattern starts at `i`. */
  predicate MatchesAt(s: string, i: int) {
    0 <= i && i + |ImageHost| < |s| && s[i..i + |ImageHost|] == ImageHost && UrlChar(s[i + |ImageHost|])
  }

  /** The end of the run of URL characters starting at `p`. */
  function RunEnd(s: string, p: nat): (e: nat)
    requires p <= |s|
    ensures p <= e <= |s|
    ensures forall q :: p <= q < e ==> UrlChar(s[q])
    ensures e == |s| || !UrlChar(s[e])
    decreases |s| - p
  {
    if p < |s| && UrlChar(s[p]) then RunEnd(s, p + 1) else p
  }

  /** The match at `i` is the leftmost one. */
  predicate FirstImageAt(s: string, i: int) {
    MatchesAt(s, i) && forall k :: 0 <= k < i ==> !MatchesAt(s, k)
  }

  /** The leftmost match at or after `from`. */
  function FindImage(s: string, from: nat): (r: Option<nat>)
    requires from <= |s|
    ensures r.Some? ==> from <= r.value && MatchesAt(s, r.value) && forall i :: from <= i < r.value ==> !MatchesAt(s, i)
    ensures r.None? ==> forall i :: from <= i ==> !MatchesAt(s, i)
    decreases |s| - from
  {
    if from + |ImageHost| >= |s| then None
    else if MatchesAt(s, from) then Some(from)
    else FindImage(s, from + 1)
  }

  /** `.replace(/[)]+$/, '')` */
  function StripTrailingParens(u: string): (r: string)
    ensures |r| <= |u| && r == u[..|r|]
  {
    if u != [] && u[|u| - 1] == ')' then StripTrailingParens(u[..|u| - 1]) else u
  }

  /** The matched text never ends in `)`, so the cleanup never changes it. */
  lemma StripNeverChanges(u: string)
    requires forall q :: 0 <= q < |u| ==> u[q] != ')'
    ensures StripTrailingParens(u) == u
  {
  }

  /**
   * The URL `handleImageResponse` sends: the leftmost, longest match of the
   * image pattern, cleaned; one exists exactly when the pattern occurs.
   */
  function ImageUrl(text: string): (u: Option<string>)
    ensures u.Some? <==> exists i :: MatchesAt(text, i)
    ensures u.Some? ==> exists i :: FirstImageAt(text, i) && u.value == text[i..RunEnd(text, i + |ImageHost|)]
    ensures u.Some? ==> |u.value| > |ImageHost| && u.value[..|ImageHost|] == ImageHost
    ensures u.Some? ==> forall q :: |ImageHost| <= q < |u.value| ==> UrlChar(u.value[q])
  {
    match FindImage(text, 0)
    case None => None
    case Some(i) =>
      ImageMatch(text, i);
      Some(StripTrailingParens(text[i..RunEnd(text, i + |ImageHost|)]))
  }

  /** What the leftmost match looks like: the host, then URL characters only, with nothing to strip. */
  lemma ImageMatch(text: string, i: nat)
    requires FindImage(text, 0) == Some(i)
    ensures var m := text[i..RunEnd(text, i + |ImageHost|)];
      && FirstImageAt(text, i)
      && |m| > |ImageHost| && m[..|ImageHost|] == ImageHost
      && (forall q :: |ImageHost| <= q < |m| ==> UrlChar(m[q]))
      && StripTrailingParens(m) == m
  {
    var h := |ImageHost|;
    var e := RunEnd(text, i + h);
    var m := text[i..e];
    assert m[..h] == text[i..i + h];
    HostHasNoParen();
    forall q | 0 <= q < |m| ensures m[q] != ')' && (h <= q ==> UrlChar(m[q])) {
      if q < h {
        assert m[q] == m[..h][q];
      } else {
        assert m[q] == text[i + q];
      }
    }
    StripNeverChanges(m);
  }

  lemma HostHasNoParen()
    ensures forall q :: 0 <= q < |ImageHost| ==> ImageHost[q] != ')'
  {
  }
}
