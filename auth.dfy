/**
 * `escapeHtml`, the escaping applied to user text placed in the mails the auth module
 * sends: five global replacements, `&` first.
 */
module Auth {

  /** `s.replace(/c/g, r)`: every occurrence of the character `c` replaced by `r`. */
  function ReplaceAll(s: string, c: char, r: string): (out: string)
    ensures c !in s ==> out == s
  {
    if s == [] then []
    else ReplaceChar(s[0], c, r) + ReplaceAll(s[1..], c, r)
  }

  /** What one character becomes under `s.replace(/c/g, r)`. */
  function ReplaceChar(ch: char, c: char, r: string): string {
    if ch == c then r else [ch]
  }

  /** `escapeHtml` as written: the chain of five replacements. */
  function EscapeHtml(s: string): string {
    var s1 := ReplaceAll(s, '&', "&amp;");
    var s2 := ReplaceAll(s1, '<', "&lt;");
    var s3 := ReplaceAll(s2, '>', "&gt;");
    var s4 := ReplaceAll(s3, '"', "&quot;");
    ReplaceAll(s4, '\'', "&#39;")
  }

  // ---------------------------------------------------------------------------
  // The character-by-character reference

  /** The five characters `escapeHtml` rewrites. */
  predicate Special(ch: char) {
    ch == '&' || ch == '<' || ch == '>' || ch == '"' || ch == '\''
  }

  /** What one character of the input becomes. */
  function EscapeChar(ch: char): string {
    if ch == '&' then "&amp;"
    else if ch == '<' then "&lt;"
    else if ch == '>' then "&gt;"
    else if ch == '"' then "&quot;"
    else if ch == '\'' then "&#39;"
    else [ch]
  }

  /** Each character escaped on its own, the results concatenated. */
  function Escape(s: string): string {
    if s == [] then [] else EscapeChar(s[0]) + Escape(s[1..])
  }

  lemma {:induction false} ReplaceAllAppend(a: string, b: string, c: char, r: string)
    ensures ReplaceAll(a + b, c, r) == ReplaceAll(a, c, r) + ReplaceAll(b, c, r)
  {
    if a != [] {
      assert (a + b)[0] == a[0] && (a + b)[1..] == a[1..] + b;
      ReplaceAllAppend(a[1..], b, c, r);
    } else {
      assert a + b == b;
    }
  }

  lemma ReplaceAllOne(ch: char, c: char, r: string)
    ensures ReplaceAll([ch], c, r) == if ch == c then r else [ch]
  {
    assert [ch][1..] == [];
  }

  /** The chain sends one character to its escape: no later replacement finds a character
      of an earlier replacement's output. */
  lemma EscapeHtmlChar(ch: char)
    ensures EscapeHtml([ch]) == EscapeChar(ch)
  {
    if ch == '&' {
      ReplaceAllOne(ch, '&', "&amp;");
      assert '<' !in "&amp;" && '>' !in "&amp;" && '"' !in "&amp;" && '\'' !in "&amp;";
    } else if ch == '<' {
      ReplaceAllOne(ch, '&', "&amp;");
      ReplaceAllOne(ch, '<', "&lt;");
      assert '>' !in "&lt;" && '"' !in "&lt;" && '\'' !in "&lt;";
    } else if ch == '>' {
      EscapeHtmlGt();
    } else if ch == '"' {
      EscapeHtmlQuot();
    } else if ch == '\'' {
      EscapeHtmlApos();
    }
  }

  lemma EscapeHtmlGt()
    ensures EscapeHtml(">") == "&gt;"
  {
    ReplaceAllOne('>', '&', "&amp;");
    ReplaceAllOne('>', '<', "&lt;");
    ReplaceAllOne('>', '>', "&gt;");
    assert '"' !in "&gt;" && '\'' !in "&gt;";
  }

  lemma EscapeHtmlQuot()
    ensures EscapeHtml("\"") == "&quot;"
  {
    ReplaceAllOne('"', '&', "&amp;");
    ReplaceAllOne('"', '<', "&lt;");
    ReplaceAllOne('"', '>', "&gt;");
    ReplaceAllOne('"', '"', "&quot;");
    assert '\'' !in "&quot;";
  }

  lemma EscapeHtmlApos()
    ensures EscapeHtml("'") == "&#39;"
  {
    ReplaceAllOne('\'', '&', "&amp;");
    ReplaceAllOne('\'', '<', "&lt;");
    ReplaceAllOne('\'', '>', "&gt;");
    ReplaceAllOne('\'', '"', "&quot;");
    ReplaceAllOne('\'', '\'', "&#39;");
  }

  lemma EscapeHtmlAppend(a: string, b: string)
    ensures EscapeHtml(a + b) == EscapeHtml(a) + EscapeHtml(b)
  {
    var a1, b1 := ReplaceAll(a, '&', "&amp;"), ReplaceAll(b, '&', "&amp;");
    ReplaceAllAppend(a, b, '&', "&amp;");
    var a2, b2 := ReplaceAll(a1, '<', "&lt;"), ReplaceAll(b1, '<', "&lt;");
    ReplaceAllAppend(a1, b1, '<', "&lt;");
    var a3, b3 := ReplaceAll(a2, '>', "&gt;"), ReplaceAll(b2, '>', "&gt;");
    ReplaceAllAppend(a2, b2, '>', "&gt;");
    var a4, b4 := ReplaceAll(a3, '"', "&quot;"), ReplaceAll(b3, '"', "&quot;");
    ReplaceAllAppend(a3, b3, '"', "&quot;");
    ReplaceAllAppend(a4, b4, '\'', "&#39;");
  }

  /** The chain of replacements is the character-by-character escape. */
  lemma {:induction false} EscapeHtmlIsEscape(s: string)
    ensures EscapeHtml(s) == Escape(s)
  {
    if s != [] {
      assert s == [s[0]] + s[1..];
      EscapeHtmlAppend([s[0]], s[1..]);
      EscapeHtmlChar(s[0]);
      EscapeHtmlIsEscape(s[1..]);
    }
  }

  lemma {:induction false} EscapeAppend(a: string, b: string)
    ensures Escape(a + b) == Escape(a) + Escape(b)
  {
    if a != [] {
      assert (a + b)[0] == a[0] && (a + b)[1..] == a[1..] + b;
      EscapeAppend(a[1..], b);
    } else {
      assert a + b == b;
    }
  }

  // ---------------------------------------------------------------------------
  // What the output looks like

  /** The five entities. */
  predicate IsEntity(e: string) {
    e == "&amp;" || e == "&lt;" || e == "&gt;" || e == "&quot;" || e == "&#39;"
  }

  /** Text in which every `&` starts an entity and no `<`, `>`, `"` or `'` occurs. */
  predicate Escaped(out: string)
    decreases |out|
  {
    if out == [] then true
    else if out[0] == '&' then
      exists n | 4 <= n <= 6 && n <= |out| :: IsEntity(out[..n]) && Escaped(out[n..])
    else !Special(out[0]) && Escaped(out[1..])
  }

  lemma EscapedConcat(ch: char, rest: string)
    requires Escaped(rest)
    ensures Escaped(EscapeChar(ch) + rest)
  {
    var e := EscapeChar(ch);
    if Special(ch) {
      EscapeCharEntity(ch);
      EntityConcat(e, rest);
    } else {
      var out := e + rest;
      assert out[0] == ch && out[1..] == rest;
    }
  }

  /** A special character's escape is one of the five entities. */
  lemma EscapeCharEntity(ch: char)
    requires Special(ch)
    ensures IsEntity(EscapeChar(ch)) && 4 <= |EscapeChar(ch)| <= 6 && EscapeChar(ch)[0] == '&'
  {
  }

  /** An entity in front of escaped text gives escaped text. */
  lemma EntityConcat(e: string, rest: string)
    requires IsEntity(e) && 4 <= |e| <= 6 && e[0] == '&' && Escaped(rest)
    ensures Escaped(e + rest)
  {
    var out := e + rest;
    assert out[..|e|] == e && out[|e|..] == rest;
    assert out[0] == '&';
  }

  /** The escape of any text is escaped text. */
  lemma {:induction false} EscapeIsEscaped(s: string)
    ensures Escaped(Escape(s))
  {
    if s != [] {
      EscapeIsEscaped(s[1..]);
      EscapedConcat(s[0], Escape(s[1..]));
    }
  }

  /** `escapeHtml` leaves no raw `<`, `>`, `"` or `'`, and every `&` it leaves starts one
      of the five entities. */
  lemma EscapeHtmlEscaped(s: string)
    ensures Escaped(EscapeHtml(s))
    ensures forall i | 0 <= i < |EscapeHtml(s)| :: EscapeHtml(s)[i] !in {'<', '>', '"', '\''}
  {
    EscapeHtmlIsEscape(s);
    EscapeIsEscaped(s);
    EscapedNoRaw(EscapeHtml(s));
  }

  lemma {:induction false} EscapedNoRaw(out: string)
    requires Escaped(out)
    ensures forall i | 0 <= i < |out| :: out[i] !in {'<', '>', '"', '\''}
    decreases |out|
  {
    if out != [] {
      if out[0] == '&' {
        var n :| 4 <= n <= 6 && n <= |out| && IsEntity(out[..n]) && Escaped(out[n..]);
        EscapedNoRaw(out[n..]);
        forall i | 0 <= i < |out| ensures out[i] !in {'<', '>', '"', '\''} {
          if i < n {
            assert out[i] == out[..n][i];
          } else {
            assert out[i] == out[n..][i - n];
          }
        }
      } else {
        EscapedNoRaw(out[1..]);
        forall i | 0 <= i < |out| ensures out[i] !in {'<', '>', '"', '\''} {
          if i > 0 {
            assert out[i] == out[1..][i - 1];
          }
        }
      }
    }
  }

  // ---------------------------------------------------------------------------
  // Round trip

  /** Decoding of the five entities, the inverse of the escape. */
  function Unescape(out: string): string
    decreases |out|
  {
    if out == [] then []
    else if |out| >= 5 && out[..5] == "&amp;" then "&" + Unescape(out[5..])
    else if |out| >= 4 && out[..4] == "&lt;" then "<" + Unescape(out[4..])
    else if |out| >= 4 && out[..4] == "&gt;" then ">" + Unescape(out[4..])
    else if |out| >= 6 && out[..6] == "&quot;" then "\"" + Unescape(out[6..])
    else if |out| >= 5 && out[..5] == "&#39;" then "'" + Unescape(out[5..])
    else [out[0]] + Unescape(out[1..])
  }

  lemma UnescapeChar(ch: char, rest: string)
    ensures Unescape(EscapeChar(ch) + rest) == [ch] + Unescape(rest)
  {
    var e := EscapeChar(ch);
    var out := e + rest;
    assert out[..|e|] == e && out[|e|..] == rest;
    if Special(ch) {
      assert out[0] == '&' && out[1] == e[1];
      assert |out| >= 5 ==> out[..5][1] == out[1];
      assert |out| >= 4 ==> out[..4][1] == out[1];
      assert |out| >= 6 ==> out[..6][1] == out[1];
    } else {
      assert out[0] == ch;
      assert |out| >= 4 ==> out[..4][0] == ch;
      assert |out| >= 5 ==> out[..5][0] == ch;
      assert |out| >= 6 ==> out[..6][0] == ch;
      assert out[1..] == rest;
    }
  }

  /** Decoding `escapeHtml`'s output gives back the input: the escape loses nothing. */
  lemma {:induction false} UnescapeEscape(s: string)
    ensures Unescape(EscapeHtml(s)) == s
  {
    EscapeHtmlIsEscape(s);
    UnescapeEscapeRef(s);
  }

  lemma {:induction false} UnescapeEscapeRef(s: string)
    ensures Unescape(Escape(s)) == s
  {
    if s != [] {
      UnescapeEscapeRef(s[1..]);
      UnescapeChar(s[0], Escape(s[1..]));
      assert s == [s[0]] + s[1..];
    }
  }

  // ---------------------------------------------------------------------------
  // Length, and text with nothing to escape

  /** How many characters the escape adds for one input character. */
  function Growth(ch: char): nat {
    if ch == '&' then 4
    else if ch == '<' || ch == '>' then 3
    else if ch == '"' then 5
    else if ch == '\'' then 4
    else 0
  }

  lemma EscapeCharLength(ch: char)
    ensures |EscapeChar(ch)| == 1 + Growth(ch)
  {
  }

  /** The five counts of a text are those of its first character plus those of the rest. */
  lemma CountsSplit(s: string)
    requires s != []
    ensures 4 * multiset(s)['&'] + 3 * multiset(s)['<'] + 3 * multiset(s)['>']
      + 5 * multiset(s)['"'] + 4 * multiset(s)['\'']
      == Growth(s[0]) + 4 * multiset(s[1..])['&'] + 3 * multiset(s[1..])['<']
      + 3 * multiset(s[1..])['>'] + 5 * multiset(s[1..])['"'] + 4 * multiset(s[1..])['\'']
  {
    assert s == [s[0]] + s[1..];
    assert multiset(s) == multiset{s[0]} + multiset(s[1..]);
  }

  /** The output is the input's length plus 4 per `&`, 3 per `<` or `>`, 5 per `"` and
      4 per `'`. */
  lemma {:induction false} EscapeHtmlLength(s: string)
    ensures |EscapeHtml(s)| == |s| + 4 * multiset(s)['&'] + 3 * multiset(s)['<'] + 3 * multiset(s)['>']
      + 5 * multiset(s)['"'] + 4 * multiset(s)['\'']
  {
    EscapeHtmlIsEscape(s);
    EscapeLength(s);
  }

  lemma {:induction false} EscapeLength(s: string)
    ensures |Escape(s)| == |s| + 4 * multiset(s)['&'] + 3 * multiset(s)['<'] + 3 * multiset(s)['>']
      + 5 * multiset(s)['"'] + 4 * multiset(s)['\'']
  {
    if s != [] {
      EscapeLength(s[1..]);
      CountsSplit(s);
      EscapeCharLength(s[0]);
      assert |Escape(s)| == |EscapeChar(s[0])| + |Escape(s[1..])|;
    }
  }

  /** Text without any of the five characters comes back unchanged; so does the empty
      string. */
  lemma {:induction false} EscapeHtmlPlain(s: string)
    requires forall i | 0 <= i < |s| :: !Special(s[i])
    ensures EscapeHtml(s) == s
  {
    EscapeHtmlIsEscape(s);
    EscapePlain(s);
  }

  lemma {:induction false} EscapePlain(s: string)
    requires forall i | 0 <= i < |s| :: !Special(s[i])
    ensures Escape(s) == s
  {
    if s != [] {
      assert !Special(s[0]);
      EscapePlain(s[1..]);
    }
  }

  /** One special character between two plain texts is replaced by its entity and the
      rest is left alone (`a&b` becomes `a&amp;b`, and so on for the other four). */
  lemma EscapeHtmlBetween(a: string, ch: char, b: string)
    requires forall i | 0 <= i < |a| :: !Special(a[i])
    requires forall i | 0 <= i < |b| :: !Special(b[i])
    ensures EscapeHtml(a + [ch] + b) == a + EscapeChar(ch) + b
  {
    EscapeHtmlAppend(a + [ch], b);
    EscapeHtmlAppend(a, [ch]);
    EscapeHtmlPlain(a);
    EscapeHtmlPlain(b);
    EscapeHtmlChar(ch);
  }
}
