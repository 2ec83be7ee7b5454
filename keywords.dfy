/**
 * Keyword extraction of the hybrid retriever:
 * `queryText.toLowerCase().replace(/[^\w\s]/g, "").split(/\s+/).filter(word => word.length > 3)`.
 *
 * Only characters that survive the strip matter, so lower-casing is modelled on them exactly:
 * ASCII capitals, U+0130 (which lower-cases to "i" plus a combining dot) and the Kelvin sign
 * U+212A (which lower-cases to "k"). Every other character either is unchanged by lower-casing
 * or lower-cases to characters that the strip removes.
 */
module Keywords {

  /** `\w` of a JavaScript regular expression without the `u` flag. */
  predicate IsWordChar(c: char)
  {
    'a' <= c <= 'z' || 'A' <= c <= 'Z' || '0' <= c <= '9' || c == '_'
  }

  /** `\s` of a JavaScript regular expression: white space and line terminators. */
  predicate IsSpace(c: char)
  {
    || c == ' ' || c == '\t' || c == '\n' || c == '\r' || c == '\U{000B}' || c == '\U{000C}'
    || c == '\U{00A0}' || c == '\U{1680}' || '\U{2000}' <= c <= '\U{200A}'
    || c == '\U{2028}' || c == '\U{2029}' || c == '\U{202F}' || c == '\U{205F}'
    || c == '\U{3000}' || c == '\U{FEFF}'
  }

  /** A character a keyword may consist of: a lower-case ASCII letter, a digit or `_`. */
  predicate IsKeywordChar(c: char)
  {
    'a' <= c <= 'z' || '0' <= c <= '9' || c == '_'
  }

  function LowerChar(c: char): (r: string)
    ensures forall d | d in r :: !('A' <= d <= 'Z')
    ensures !IsSpace(c) ==> forall d | d in r :: !IsSpace(d)
    ensures IsSpace(c) ==> r == [c]
  {
    if 'A' <= c <= 'Z' then [(c as int + 32) as char]
    else if c == '\U{0130}' then ['i', '\U{0307}']
    else if c == '\U{212A}' then ['k']
    else [c]
  }

  /** `toLowerCase()`, on the characters that can survive the strip. */
  function ToLower(s: string): string
  {
    if s == [] then [] else LowerChar(s[0]) + ToLower(s[1..])
  }

  /** Lower-casing leaves no ASCII capital and introduces no white space. */
  lemma {:induction false} ToLowerChars(s: string)
    ensures forall d | d in ToLower(s) :: !('A' <= d <= 'Z')
    ensures (forall c | c in s :: !IsSpace(c)) ==> forall d | d in ToLower(s) :: !IsSpace(d)
    decreases |s|
  {
    if s != [] {
      ToLowerChars(s[1..]);
      assert s[0] in s;
      assert forall c | c in s[1..] :: c in s;
    }
  }

  /** `replace(/[^\w\s]/g, "")`: keep word characters and white space, in order. */
  function StripNonWord(s: string): string
  {
    if s == [] then []
    else (if IsWordChar(s[0]) || IsSpace(s[0]) then [s[0]] else []) + StripNonWord(s[1..])
  }

  /** What the strip keeps are word characters and white space of the input. */
  lemma {:induction false} StripChars(s: string)
    ensures forall c | c in StripNonWord(s) :: (IsWordChar(c) || IsSpace(c)) && c in s
    decreases |s|
  {
    if s != [] {
      StripChars(s[1..]);
      assert forall c | c in s[1..] :: c in s;
    }
  }

  /**
   * `split(/\s+/)`, one character at a time: `cur` is the token being read and `inGap` says that
   * the previous character was white space. Each maximal run of white space ends one token and
   * starts the next, so leading or trailing white space yields an empty first or last token.
   */
  function SplitFrom(s: string, cur: string, inGap: bool): seq<string>
    decreases |s|
  {
    if s == [] then [cur]
    else if IsSpace(s[0]) then (if inGap then [] else [cur]) + SplitFrom(s[1..], "", true)
    else SplitFrom(s[1..], cur + [s[0]], false)
  }

  function Split(s: string): seq<string>
  {
    SplitFrom(s, "", false)
  }

  /** Tokens hold no white space, and their characters come from the token so far or the input. */
  lemma {:induction false} SplitChars(s: string, cur: string, inGap: bool)
    requires forall c | c in cur :: !IsSpace(c)
    ensures forall t, c | t in SplitFrom(s, cur, inGap) && c in t :: !IsSpace(c) && (c in cur || c in s)
    decreases |s|
  {
    if s != [] {
      assert forall c | c in s[1..] :: c in s;
      if IsSpace(s[0]) {
        SplitChars(s[1..], "", true);
      } else {
        SplitChars(s[1..], cur + [s[0]], false);
      }
    }
  }

  /** `filter(word => word.length > 3)`. */
  function KeepLong(ts: seq<string>): seq<string>
  {
    if ts == [] then [] else (if |ts[0]| > 3 then [ts[0]] else []) + KeepLong(ts[1..])
  }

  /** The filter keeps only tokens of the input that are longer than three characters. */
  lemma {:induction false} KeepLongChars(ts: seq<string>)
    ensures forall t | t in KeepLong(ts) :: |t| > 3 && t in ts
    decreases |ts|
  {
    if ts != [] {
      KeepLongChars(ts[1..]);
    }
  }

  /** The keywords of a query: every one is longer than three characters and is made of keyword characters only. */
  function ExtractKeywords(queryText: string): (r: seq<string>)
    ensures forall k | k in r :: |k| > 3 && forall c | c in k :: IsKeywordChar(c)
  {
    var lower := ToLower(queryText);
    var stripped := StripNonWord(lower);
    ToLowerChars(queryText);
    StripChars(lower);
    SplitChars(stripped, "", false);
    KeepLongChars(Split(stripped));
    KeepLong(Split(stripped))
  }

  lemma {:induction false} KeepLongConcat(a: seq<string>, b: seq<string>)
    ensures KeepLong(a + b) == KeepLong(a) + KeepLong(b)
    decreases |a|
  {
    if a != [] {
      assert (a + b)[0] == a[0] && (a + b)[1..] == a[1..] + b;
      KeepLongConcat(a[1..], b);
      var h := if |a[0]| > 3 then [a[0]] else [];
      assert KeepLong(a + b) == h + KeepLong(a[1..] + b);
    } else {
      assert a + b == b;
    }
  }

  lemma {:induction false} ToLowerConcat(a: string, b: string)
    ensures ToLower(a + b) == ToLower(a) + ToLower(b)
    decreases |a|
  {
    if a != [] {
      assert (a + b)[0] == a[0] && (a + b)[1..] == a[1..] + b;
      ToLowerConcat(a[1..], b);
      assert ToLower(a + b) == LowerChar(a[0]) + ToLower(a[1..] + b);
    } else {
      assert a + b == b;
    }
  }

  lemma {:induction false} StripConcat(a: string, b: string)
    ensures StripNonWord(a + b) == StripNonWord(a) + StripNonWord(b)
    decreases |a|
  {
    if a != [] {
      assert (a + b)[0] == a[0] && (a + b)[1..] == a[1..] + b;
      StripConcat(a[1..], b);
      var h := if IsWordChar(a[0]) || IsSpace(a[0]) then [a[0]] else [];
      assert StripNonWord(a + b) == h + StripNonWord(a[1..] + b);
    } else {
      assert a + b == b;
    }
  }

  /** Starting inside a gap only drops an empty first token, which the length filter drops anyway. */
  lemma SplitInGap(s: string)
    ensures KeepLong(SplitFrom(s, "", true)) == KeepLong(SplitFrom(s, "", false))
  {
    if s != [] && IsSpace(s[0]) {
      var rest := SplitFrom(s[1..], "", true);
      assert SplitFrom(s, "", true) == rest;
      assert SplitFrom(s, "", false) == [""] + rest;
      KeepLongConcat([""], rest);
    } else if s != [] {
      assert "" + [s[0]] == [s[0]];
    }
  }

  /** Splitting text that begins with a white-space character: the tokens before it end there. */
  lemma SplitAtSpaceFirst(c: char, b: string, cur: string, inGap: bool)
    requires IsSpace(c) && (inGap ==> cur == "")
    ensures KeepLong(SplitFrom([c] + b, cur, inGap))
         == KeepLong(SplitFrom([], cur, inGap)) + KeepLong(SplitFrom(b, "", true))
  {
    var s := [c] + b;
    assert s[0] == c && s[1..] == b;
    var front := if inGap then [] else [cur];
    assert SplitFrom(s, cur, inGap) == front + SplitFrom(b, "", true);
    KeepLongConcat(front, SplitFrom(b, "", true));
    assert KeepLong([cur]) == KeepLong(front) by {
      if inGap { assert KeepLong([cur]) == [] + KeepLong([]); }
    }
  }

  /** One step of `SplitAtSpace` past a white-space character of the left part. */
  lemma SplitAtSpaceGap(a: string, c: char, b: string, cur: string, inGap: bool)
    requires a != [] && IsSpace(a[0])
    requires KeepLong(SplitFrom(a[1..] + [c] + b, "", true))
          == KeepLong(SplitFrom(a[1..], "", true)) + KeepLong(SplitFrom(b, "", true))
    ensures KeepLong(SplitFrom(a + [c] + b, cur, inGap))
         == KeepLong(SplitFrom(a, cur, inGap)) + KeepLong(SplitFrom(b, "", true))
  {
    var s := a + [c] + b;
    assert s[0] == a[0] && s[1..] == a[1..] + [c] + b;
    var front := if inGap then [] else [cur];
    var t1, ta := SplitFrom(s[1..], "", true), SplitFrom(a[1..], "", true);
    var kb := KeepLong(SplitFrom(b, "", true));
    assert KeepLong(t1) == KeepLong(ta) + kb;
    assert KeepLong(SplitFrom(s, cur, inGap)) == KeepLong(front) + KeepLong(t1) by {
      assert SplitFrom(s, cur, inGap) == front + t1;
      KeepLongConcat(front, t1);
    }
    assert KeepLong(SplitFrom(a, cur, inGap)) == KeepLong(front) + KeepLong(ta) by {
      assert SplitFrom(a, cur, inGap) == front + ta;
      KeepLongConcat(front, ta);
    }
    assert KeepLong(front) + (KeepLong(ta) + kb) == (KeepLong(front) + KeepLong(ta)) + kb;
  }

  /** One step of `SplitAtSpace` past a character of the left part that extends the current token. */
  lemma SplitAtSpaceWord(a: string, c: char, b: string, cur: string, inGap: bool)
    requires a != [] && !IsSpace(a[0])
    requires KeepLong(SplitFrom(a[1..] + [c] + b, cur + [a[0]], false))
          == KeepLong(SplitFrom(a[1..], cur + [a[0]], false)) + KeepLong(SplitFrom(b, "", true))
    ensures KeepLong(SplitFrom(a + [c] + b, cur, inGap))
         == KeepLong(SplitFrom(a, cur, inGap)) + KeepLong(SplitFrom(b, "", true))
  {
    var s := a + [c] + b;
    assert s[0] == a[0] && s[1..] == a[1..] + [c] + b;
    assert SplitFrom(s, cur, inGap) == SplitFrom(s[1..], cur + [a[0]], false);
    assert SplitFrom(a, cur, inGap) == SplitFrom(a[1..], cur + [a[0]], false);
  }

  /** Splitting distributes over a white-space character: the tokens of the text on either side, in order. */
  lemma {:induction false} SplitAtSpace(a: string, c: char, b: string, cur: string, inGap: bool)
    requires IsSpace(c) && (inGap ==> cur == "")
    ensures KeepLong(SplitFrom(a + [c] + b, cur, inGap))
         == KeepLong(SplitFrom(a, cur, inGap)) + KeepLong(SplitFrom(b, "", true))
    decreases |a|
  {
    if a == [] {
      assert a + [c] + b == [c] + b;
      SplitAtSpaceFirst(c, b, cur, inGap);
    } else if IsSpace(a[0]) {
      SplitAtSpace(a[1..], c, b, "", true);
      SplitAtSpaceGap(a, c, b, cur, inGap);
    } else {
      SplitAtSpace(a[1..], c, b, cur + [a[0]], false);
      SplitAtSpaceWord(a, c, b, cur, inGap);
    }
  }

  /** Keywords come in query order: text on either side of a white-space character contributes its own keywords. */
  lemma KeywordsConcat(a: string, c: char, b: string)
    requires IsSpace(c)
    ensures ExtractKeywords(a + [c] + b) == ExtractKeywords(a) + ExtractKeywords(b)
  {
    ToLowerConcat(a + [c], b);
    ToLowerConcat(a, [c]);
    var la, lb := ToLower(a), ToLower(b);
    assert ToLower([c]) == [c];
    StripConcat(la + [c], lb);
    StripConcat(la, [c]);
    assert StripNonWord([c]) == [c];
    SplitAtSpace(StripNonWord(la), c, StripNonWord(lb), "", false);
    SplitInGap(StripNonWord(lb));
  }

  lemma {:induction false} SplitWord(s: string, cur: string)
    requires forall c | c in s :: !IsSpace(c)
    ensures SplitFrom(s, cur, false) == [cur + s]
    decreases |s|
  {
    if s != [] {
      assert s[0] in s;
      assert forall c | c in s[1..] :: c in s;
      assert (cur + [s[0]]) + s[1..] == cur + s;
      assert SplitFrom(s, cur, false) == SplitFrom(s[1..], cur + [s[0]], false);
      SplitWord(s[1..], cur + [s[0]]);
    } else {
      assert cur + s == cur;
    }
  }

  /** A query without white space is a single keyword if, normalised, it is longer than three characters. */
  lemma {:induction false} KeywordsOfWord(w: string)
    requires forall i | 0 <= i < |w| :: !IsSpace(w[i])
    ensures var n := StripNonWord(ToLower(w)); ExtractKeywords(w) == if |n| > 3 then [n] else []
  {
    var lower := ToLower(w);
    var n := StripNonWord(lower);
    ToLowerChars(w);
    StripChars(lower);
    SplitWord(n, "");
    assert "" + n == n;
    assert ExtractKeywords(w) == KeepLong([n]);
  }

  /** Lower-casing leaves a string of keyword characters as it is. */
  lemma {:induction false} ToLowerKeeps(s: string)
    requires forall i | 0 <= i < |s| :: IsKeywordChar(s[i])
    ensures ToLower(s) == s
    decreases |s|
  {
    if s != [] {
      ToLowerKeeps(s[1..]);
      assert LowerChar(s[0]) == [s[0]];
      assert s == [s[0]] + s[1..];
    }
  }

  /** The strip leaves a string of word characters as it is. */
  lemma {:induction false} StripKeeps(s: string)
    requires forall i | 0 <= i < |s| :: IsWordChar(s[i])
    ensures StripNonWord(s) == s
    decreases |s|
  {
    if s != [] {
      StripKeeps(s[1..]);
      assert s == [s[0]] + s[1..];
    }
  }

  /** A single word already in keyword form is its own keyword exactly when it is longer than three characters. */
  lemma KeywordsOfPlainWord(w: string)
    requires forall i | 0 <= i < |w| :: IsKeywordChar(w[i])
    ensures ExtractKeywords(w) == if |w| > 3 then [w] else []
  {
    ToLowerKeeps(w);
    StripKeeps(w);
    KeywordsOfWord(w);
  }

  /** A word of keyword characters followed by one character that the strip removes. */
  lemma KeywordsOfPunctuatedWord(w: string, p: char)
    requires forall i | 0 <= i < |w| :: IsKeywordChar(w[i])
    requires !IsWordChar(p) && !IsSpace(p) && p != '\U{0130}' && p != '\U{212A}'
    ensures ExtractKeywords(w + [p]) == if |w| > 3 then [w] else []
  {
    var s := w + [p];
    assert LowerChar(p) == [p];
    ToLowerConcat(w, [p]);
    ToLowerKeeps(w);
    assert ToLower([p]) == [p];
    StripConcat(w, [p]);
    StripKeeps(w);
    assert StripNonWord([p]) == [];
    assert w + [] == w;
    forall i | 0 <= i < |s| ensures !IsSpace(s[i]) {
      if i < |w| { assert s[i] == w[i]; }
    }
    KeywordsOfWord(s);
  }

  /** A word of keyword characters behind one ASCII capital: the capital is lowered. */
  lemma KeywordsOfCapitalisedWord(c: char, w: string)
    requires 'A' <= c <= 'Z'
    requires forall i | 0 <= i < |w| :: IsKeywordChar(w[i])
    ensures ExtractKeywords([c] + w) == if |w| >= 3 then [[(c as int + 32) as char] + w] else []
  {
    var s := [c] + w;
    var n := [(c as int + 32) as char] + w;
    ToLowerConcat([c], w);
    ToLowerKeeps(w);
    assert ToLower([c]) == LowerChar(c) + ToLower([]);
    forall i | 0 <= i < |n| ensures IsWordChar(n[i]) {
      if i > 0 { assert n[i] == w[i - 1]; }
    }
    StripKeeps(n);
    forall i | 0 <= i < |s| ensures !IsSpace(s[i]) {
      if i > 0 { assert s[i] == w[i - 1]; }
    }
    KeywordsOfWord(s);
  }

  /** A greeting of two letters yields no keyword at all. */
  lemma GreetingHasNoKeywords()
    ensures ExtractKeywords("hi?") == []
  {
    KeywordsOfPunctuatedWord("hi", '?');
    assert "hi?" == "hi" + ['?'];
  }
}
