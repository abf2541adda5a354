/** The field sanitizers of transform_data.py: `remove_urls`, `clean_text_field`
    and `clean_price`, as total string functions. */
module Sanitize {
  import opened Wrappers
  import opened Strings
  import opened WordSplit

  // ---------------------------------------------------------------------------
  // URL removal: re.sub(r'https?://\S+|www\.\S+', '', s)
  // ---------------------------------------------------------------------------

  /** The whitespace-free word s starts with. */
  function Token(s: string): string {
    s[..TokenLength(s)]
  }

  /** Length of the regex match anchored at the front of s, or 0 when the
      pattern does not match there. Each alternative needs at least one
      non-space character after its prefix and then takes the maximal run. */
  function UrlMatch(s: string): (n: nat)
    ensures n <= |s|
  {
    if StartsWith(s, "https://") && 8 < |s| && !IsSpace(s[8]) then 8 + TokenLength(s[8..])
    else if StartsWith(s, "http://") && 7 < |s| && !IsSpace(s[7]) then 7 + TokenLength(s[7..])
    else if StartsWith(s, "www.") && 4 < |s| && !IsSpace(s[4]) then 4 + TokenLength(s[4..])
    else 0
  }

  /** A word that, on its own, is a URL to the pattern. */
  predicate IsUrlWord(w: string) {
    || (StartsWith(w, "https://") && |w| > 8)
    || (StartsWith(w, "http://") && |w| > 7)
    || (StartsWith(w, "www.") && |w| > 4)
  }

  /** The regex sees a URL at the front of s exactly when the first word is a
      URL, and then the match is that whole word. */
  lemma UrlMatchIsWord(s: string)
    ensures UrlMatch(s) > 0 <==> IsUrlWord(Token(s))
    ensures UrlMatch(s) > 0 ==> UrlMatch(s) == TokenLength(s)
  {
    if IsUrlWord(Token(s)) {
      WordIsUrlMatch(s);
    }
    if StartsWith(s, "https://") && 8 < |s| && !IsSpace(s[8]) {
      PrefixInToken(s, "https://");
      TokenSuffix(s, 8);
    } else if StartsWith(s, "http://") && 7 < |s| && !IsSpace(s[7]) {
      PrefixInToken(s, "http://");
      TokenSuffix(s, 7);
    } else if StartsWith(s, "www.") && 4 < |s| && !IsSpace(s[4]) {
      PrefixInToken(s, "www.");
      TokenSuffix(s, 4);
    }
  }

  lemma WordIsUrlMatch(s: string)
    requires IsUrlWord(Token(s))
    ensures UrlMatch(s) > 0
  {
    var t := Token(s);
    assert t == s[..|t|];
    if StartsWith(t, "https://") && |t| > 8 {
      assert s[..8] == t[..8];
      assert s[8] == t[8];
    } else if StartsWith(t, "http://") && |t| > 7 {
      assert s[..7] == t[..7];
      assert s[7] == t[7];
    } else {
      assert s[..4] == t[..4];
      assert s[4] == t[4];
    }
  }

  /** A prefix without whitespace, followed by a non-space character, lies inside the first word. */
  lemma PrefixInToken(s: string, p: string)
    requires StartsWith(s, p) && |p| < |s| && !IsSpace(s[|p|])
    requires forall k :: 0 <= k < |p| ==> !IsSpace(p[k])
    ensures TokenLength(s) > |p| && StartsWith(Token(s), p)
  {
    forall k | 0 <= k < |p|
      ensures !IsSpace(s[k])
    {
      assert s[k] == s[..|p|][k];
    }
    TokenAtLeast(s, |p|);
    assert Token(s)[..|p|] == s[..|p|];
  }

  lemma TokenAtLeast(s: string, m: nat)
    requires m < |s|
    requires forall k :: 0 <= k <= m ==> !IsSpace(s[k])
    ensures TokenLength(s) > m
  {
  }

  /** Past a non-space prefix, the first word continues to the same place. */
  lemma {:induction false} TokenSuffix(s: string, m: nat)
    requires m <= TokenLength(s)
    ensures TokenLength(s) == m + TokenLength(s[m..])
    decreases m
  {
    if m > 0 {
      assert s[1..][m - 1..] == s[m..];
      TokenSuffix(s[1..], m - 1);
    }
  }

  /** Left-to-right replacement of every match by nothing; after a match the
      scan resumes where it ended, otherwise one character further on. */
  function RemoveUrls(s: string): (r: string)
    ensures |r| <= |s|
    decreases |s|
  {
    if |s| == 0 then ""
    else if UrlMatch(s) > 0 then RemoveUrls(s[UrlMatch(s)..])
    else [s[0]] + RemoveUrls(s[1..])
  }

  /** No position of s starts a URL match. */
  predicate UrlFree(s: string) {
    forall i :: 0 <= i < |s| ==> UrlMatch(s[i..]) == 0
  }

  /** A non-space character in front extends the first word by that character. */
  lemma TokenCons(c: char, x: string)
    requires !IsSpace(c)
    ensures Token([c] + x) == [c] + Token(x)
  {
    assert ([c] + x)[1..] == x;
  }

  /** Text that starts with neither 'h' nor 'w' has no match at its front. */
  lemma NoUrlStart(s: string)
    requires |s| > 0 && s[0] != 'h' && s[0] != 'w'
    ensures UrlMatch(s) == 0
    ensures RemoveUrls(s) == [s[0]] + RemoveUrls(s[1..])
  {
    assert !StartsWith(s, "https://") by {
      if |s| >= 8 { assert s[..8][0] == s[0]; }
    }
    assert !StartsWith(s, "http://") by {
      if |s| >= 7 { assert s[..7][0] == s[0]; }
    }
    assert !StartsWith(s, "www.") by {
      if |s| >= 4 { assert s[..4][0] == s[0]; }
    }
  }

  /** Text that starts with whitespace has an empty first word and no match. */
  lemma SpaceFirst(s: string)
    requires |s| > 0 && IsSpace(s[0])
    ensures UrlMatch(s) == 0
    ensures RemoveUrls(s) == [s[0]] + RemoveUrls(s[1..])
    ensures Token(RemoveUrls(s)) == ""
  {
    NoUrlStart(s);
  }

  /** The first word of the result is a prefix of the first word of the input:
      a removed URL always runs up to whitespace or the end. */
  lemma {:induction false} RemoveUrlsToken(s: string)
    ensures Token(RemoveUrls(s)) <= Token(s)
    decreases |s|
  {
    if |s| > 0 {
      var m := UrlMatch(s);
      if m > 0 {
        UrlMatchIsWord(s);
        if m < |s| {
          SpaceFirst(s[m..]);
        }
      } else if IsSpace(s[0]) {
        SpaceFirst(s);
      } else {
        RemoveUrlsToken(s[1..]);
        TokenCons(s[0], RemoveUrls(s[1..]));
        assert s == [s[0]] + s[1..];
        TokenCons(s[0], s[1..]);
      }
    }
  }

  /** A word extended by more characters is still a URL to the pattern. */
  lemma UrlWordExtends(w: string, v: string)
    requires w <= v && IsUrlWord(w)
    ensures IsUrlWord(v)
  {
    assert v[..|w|] == w;
    if StartsWith(w, "https://") {
      assert v[..8] == w[..8];
    } else if StartsWith(w, "http://") {
      assert v[..7] == w[..7];
    } else {
      assert v[..4] == w[..4];
    }
  }

  /** After removal no URL is left, even where removing one joined two pieces. */
  lemma {:induction false} RemoveUrlsLeavesNone(s: string)
    ensures UrlFree(RemoveUrls(s))
    decreases |s|
  {
    if |s| > 0 {
      var m := UrlMatch(s);
      if m > 0 {
        RemoveUrlsLeavesNone(s[m..]);
      } else {
        RemoveUrlsLeavesNone(s[1..]);
        var r := RemoveUrls(s);
        assert r == [s[0]] + RemoveUrls(s[1..]);
        forall i | 0 <= i < |r|
          ensures UrlMatch(r[i..]) == 0
        {
          if i == 0 {
            RemoveUrlsToken(s);
            UrlMatchIsWord(r);
            UrlMatchIsWord(s);
            if UrlMatch(r) > 0 {
              UrlWordExtends(Token(r), Token(s));
            }
          } else {
            assert r[i..] == RemoveUrls(s[1..])[i - 1..];
          }
        }
      }
    }
  }

  /** Text without URLs passes through unchanged. */
  lemma {:induction false} RemoveUrlsKeepsFree(s: string)
    requires UrlFree(s)
    ensures RemoveUrls(s) == s
    decreases |s|
  {
    if |s| > 0 {
      assert s[0..] == s;
      assert forall i :: 0 <= i < |s| - 1 ==> s[1..][i..] == s[i + 1..];
      RemoveUrlsKeepsFree(s[1..]);
    }
  }

  /** Removing URLs twice removes nothing more. */
  lemma RemoveUrlsIdempotent(s: string)
    ensures RemoveUrls(RemoveUrls(s)) == RemoveUrls(s)
  {
    RemoveUrlsLeavesNone(s);
    RemoveUrlsKeepsFree(RemoveUrls(s));
  }

  /** Whitespace is never part of a match, so every whitespace character survives. */
  lemma {:induction false} RemoveUrlsKeepsSpace(c: char, s: string)
    requires IsSpace(c)
    ensures Count(c, RemoveUrls(s)) == Count(c, s)
    decreases |s|
  {
    if |s| > 0 {
      var m := UrlMatch(s);
      if m > 0 {
        assert RemoveUrls(s) == RemoveUrls(s[m..]);
        RemoveUrlsKeepsSpace(c, s[m..]);
        UrlMatchIsWord(s);
        assert s == s[..m] + s[m..];
        CountAppend(c, s[..m], s[m..]);
        NoSpaceCount(c, s[..m]);
      } else {
        assert RemoveUrls(s) == [s[0]] + RemoveUrls(s[1..]);
        RemoveUrlsKeepsSpace(c, s[1..]);
        assert Count(c, s) == (if s[0] == c then 1 else 0) + Count(c, s[1..]);
        CountAppend(c, [s[0]], RemoveUrls(s[1..]));
      }
    }
  }

  lemma {:induction false} NoSpaceCount(c: char, s: string)
    requires IsSpace(c)
    requires forall k :: 0 <= k < |s| ==> !IsSpace(s[k])
    ensures Count(c, s) == 0
    decreases |s|
  {
    if |s| > 0 {
      NoSpaceCount(c, s[1..]);
    }
  }

  // ---------------------------------------------------------------------------
  // clean_text_field
  // ---------------------------------------------------------------------------

  predicate IsControl(c: char) {
    c == '\n' || c == '\r' || c == '\t'
  }

  /** The three `replace` calls: newline, carriage return and tab become a space. */
  function ReplaceControls(s: string): (r: string)
    ensures |r| == |s|
    ensures forall k :: 0 <= k < |s| ==> r[k] == (if IsControl(s[k]) then ' ' else s[k])
  {
    seq(|s|, k requires 0 <= k < |s| => if IsControl(s[k]) then ' ' else s[k])
  }

  /** A control character is whitespace and so is a space, so the
      non-whitespace content is untouched. */
  lemma {:induction false} ReplaceControlsNonSpace(s: string)
    ensures NonSpace(ReplaceControls(s)) == NonSpace(s)
    decreases |s|
  {
    if |s| > 0 {
      ReplaceControlsNonSpace(s[1..]);
      assert ReplaceControls(s)[1..] == ReplaceControls(s[1..]);
    }
  }

  /** Turning whitespace into spaces separates the same words. */
  lemma {:induction false} WordsOfControls(x: string)
    ensures Words(ReplaceControls(x)) == Words(x)
    decreases |x|
  {
    var r := ReplaceControls(x);
    if |x| > 0 {
      if IsSpace(x[0]) {
        assert r[1..] == ReplaceControls(x[1..]);
        WordsOfControls(x[1..]);
      } else {
        var n := TokenLength(x);
        var w, y := x[..n], x[n..];
        assert x == w + y;
        assert r == w + ReplaceControls(y);
        WordsOfControls(y);
        WordsAfterWord(w, y);
        WordsAfterWord(w, ReplaceControls(y));
      }
    }
  }

  /** `replace('"', '""')`: every quote is doubled. */
  function DoubleQuotes(s: string): (r: string)
    decreases |s|
  {
    if |s| == 0 then ""
    else (if s[0] == '"' then "\"\"" else [s[0]]) + DoubleQuotes(s[1..])
  }

  /** Reads a doubled-quote text back: each `""` becomes one quote. */
  function UndoubleQuotes(s: string): string
    decreases |s|
  {
    if |s| == 0 then ""
    else if |s| >= 2 && s[0] == '"' && s[1] == '"' then "\"" + UndoubleQuotes(s[2..])
    else [s[0]] + UndoubleQuotes(s[1..])
  }

  /** Doubling is undone by reading doubled quotes back, so it loses nothing. */
  lemma {:induction false} DoubleQuotesRoundTrip(s: string)
    ensures UndoubleQuotes(DoubleQuotes(s)) == s
    decreases |s|
  {
    if |s| > 0 {
      DoubleQuotesRoundTrip(s[1..]);
      var d := DoubleQuotes(s);
      if s[0] == '"' {
        assert d[2..] == DoubleQuotes(s[1..]);
      } else {
        assert d[1..] == DoubleQuotes(s[1..]);
      }
      assert s == [s[0]] + s[1..];
    }
  }

  /** Twice as many quotes come out as go in, and no whitespace is added or removed. */
  lemma {:induction false} DoubleQuotesCounts(s: string)
    ensures Count('"', DoubleQuotes(s)) == 2 * Count('"', s)
    ensures forall c :: c != '"' ==> Count(c, DoubleQuotes(s)) == Count(c, s)
    decreases |s|
  {
    if |s| > 0 {
      DoubleQuotesCounts(s[1..]);
      var h := if s[0] == '"' then "\"\"" else [s[0]];
      CountAppend('"', h, DoubleQuotes(s[1..]));
      forall c | c != '"'
        ensures Count(c, DoubleQuotes(s)) == Count(c, s)
      {
        CountAppend(c, h, DoubleQuotes(s[1..]));
      }
    }
  }

  /** `re.sub(r'\s+', ' ', s)`: every maximal run of whitespace becomes one space. */
  function CollapseSpaces(s: string): (r: string)
    ensures |s| > 0 <==> |r| > 0
    ensures |s| > 0 && IsSpace(s[0]) ==> r[0] == ' '
    ensures |s| > 0 && !IsSpace(s[0]) ==> r[0] == s[0]
    ensures forall k :: 0 <= k < |r| && IsSpace(r[k]) ==> r[k] == ' '
    ensures forall k :: 0 <= k < |r| - 1 ==> !(IsSpace(r[k]) && IsSpace(r[k + 1]))
    ensures Words(r) == Words(s)
    decreases |s|
  {
    if |s| == 0 then ""
    else if IsSpace(s[0]) then
      var n := LeadingSpace(s);
      var c := CollapseSpaces(s[n..]);
      WordsAfterRun(s, n, c);
      " " + c
    else
      var c := CollapseSpaces(s[1..]);
      WordsAfterChar(s, c);
      [s[0]] + c
  }

  /** Collapsing and then stripping leaves the words of s, single-spaced:
      Python's `" ".join(s.split())`. */
  lemma StripCollapse(s: string)
    ensures Strip(CollapseSpaces(s)) == Join(Words(s), " ")
  {
    var w := CollapseSpaces(s);
    StripCollapsed(w);
    WordsOfStrip(w);
    CollapsedIsJoin(Strip(w));
  }

  /** Collapsing keeps every non-space character in order. */
  lemma {:induction false} CollapseNonSpace(s: string)
    ensures NonSpace(CollapseSpaces(s)) == NonSpace(s)
    decreases |s|
  {
    if |s| > 0 {
      if IsSpace(s[0]) {
        var n := LeadingSpace(s);
        CollapseNonSpace(s[n..]);
        assert s == s[..n] + s[n..];
        NonSpaceAppend(s[..n], s[n..]);
        AllSpace(s[..n]);
        NonSpaceAppend(" ", CollapseSpaces(s[n..]));
      } else {
        CollapseNonSpace(s[1..]);
        NonSpaceAppend([s[0]], CollapseSpaces(s[1..]));
      }
    }
  }

  /** Stripping collapsed text trims at most one space at each end, so the
      result is still collapsed. */
  lemma StripCollapsed(s: string)
    requires Collapsed(s)
    ensures Collapsed(Strip(s))
  {
    var i, j :|
      && 0 <= i <= j <= |s| && Strip(s) == s[i..j]
      && (forall k :: 0 <= k < i ==> IsSpace(s[k]))
      && (forall k :: j <= k < |s| ==> IsSpace(s[k]));
    var r := s[i..j];
    assert forall k :: 0 <= k < |r| ==> r[k] == s[i + k];
  }

  /** Already collapsed text is left as it is. */
  lemma {:induction false} CollapsedFixed(s: string)
    requires Collapsed(s)
    ensures CollapseSpaces(s) == s
    decreases |s|
  {
    if |s| > 0 {
      var t := s[1..];
      assert Collapsed(t) by {
        assert forall k :: 0 <= k < |t| ==> t[k] == s[k + 1];
      }
      CollapsedFixed(t);
      if IsSpace(s[0]) {
        assert LeadingSpace(s) == 1 by {
          assert |s| > 1 ==> !IsSpace(s[1]);
        }
        assert s == " " + t;
      } else {
        assert s == [s[0]] + t;
      }
    }
  }

  /** Text without control characters is left as it is. */
  lemma ReplaceControlsNone(s: string)
    requires forall k :: 0 <= k < |s| ==> !IsControl(s[k])
    ensures ReplaceControls(s) == s
  {
  }

  /** `clean_text_field` on a non-null value: URLs first, then control
      characters, then quote doubling, then whitespace collapsing and trimming.
      The result is one line of single-spaced words with no surrounding space. */
  function CleanText(s: string): (r: string)
    ensures forall k :: 0 <= k < |r| ==> !IsControl(r[k])
    ensures forall k :: 0 <= k < |r| && IsSpace(r[k]) ==> r[k] == ' '
    ensures forall k :: 0 <= k < |r| - 1 ==> !(IsSpace(r[k]) && IsSpace(r[k + 1]))
    ensures |r| > 0 ==> !IsSpace(r[0]) && !IsSpace(r[|r| - 1])
    ensures r == Join(Words(DoubleQuotes(RemoveUrls(s))), " ")
  {
    var u := RemoveUrls(s);
    var w := CollapseSpaces(DoubleQuotes(ReplaceControls(u)));
    CleanSteps(u);
    Strip(w)
  }

  /** The steps after URL removal, on the URL-free text u. */
  lemma CleanSteps(u: string)
    ensures var r := Strip(CollapseSpaces(DoubleQuotes(ReplaceControls(u))));
            && (forall k :: 0 <= k < |r| ==> !IsControl(r[k]))
            && Collapsed(r)
            && r == Join(Words(DoubleQuotes(u)), " ")
  {
    var d := DoubleQuotes(ReplaceControls(u));
    var w := CollapseSpaces(d);
    StripCollapsed(w);
    CollapsedNoControl(Strip(w));
    StripCollapse(d);
    ControlsDoNotSplit(u);
  }

  /** Doubling quotes before or after turning whitespace into spaces splits
      into the same words. */
  lemma ControlsDoNotSplit(u: string)
    ensures Words(DoubleQuotes(ReplaceControls(u))) == Words(DoubleQuotes(u))
  {
    DoubleQuotesOfControls(u);
    WordsOfControls(DoubleQuotes(u));
  }

  lemma CollapsedNoControl(r: string)
    requires Collapsed(r)
    ensures forall k :: 0 <= k < |r| ==> !IsControl(r[k])
  {
    forall k | 0 <= k < |r|
      ensures !IsControl(r[k])
    {
      if IsControl(r[k]) {
        assert IsSpace(r[k]);
      }
    }
  }

  /** Text that is already clean and holds no quote is a fixed point. A quote
      is what breaks idempotence: each cleaning doubles it again. */
  lemma CleanTextKeepsClean(s: string)
    requires UrlFree(s) && '"' !in s
    requires forall k :: 0 <= k < |s| ==> !IsControl(s[k])
    requires Collapsed(s)
    requires |s| > 0 ==> !IsSpace(s[0]) && !IsSpace(s[|s| - 1])
    ensures CleanText(s) == s
  {
    RemoveUrlsKeepsFree(s);
    ReplaceControlsNone(s);
    DoubleQuotesNoQuote(s);
    CollapsedFixed(s);
    StripTrimmed(s);
  }

  /** Cleaning keeps every non-space character of the URL-free, quote-doubled
      text, so it holds exactly twice the quotes that survive URL removal. */
  lemma CleanTextContent(s: string)
    ensures NonSpace(CleanText(s)) == NonSpace(DoubleQuotes(RemoveUrls(s)))
    ensures Count('"', CleanText(s)) == 2 * Count('"', RemoveUrls(s))
  {
    var u := RemoveUrls(s);
    var c := ReplaceControls(u);
    var d := DoubleQuotes(c);
    var w := CollapseSpaces(d);
    var r := Strip(w);
    assert r == CleanText(s);
    StripNonSpace(w);
    CollapseNonSpace(d);
    NonSpaceOfDoubled(c);
    ReplaceControlsNonSpace(u);
    NonSpaceOfDoubled(u);
    assert NonSpace(r) == NonSpace(DoubleQuotes(u));
    CountNonSpace('"', r);
    CountNonSpace('"', DoubleQuotes(u));
    DoubleQuotesCounts(u);
  }

  /** Doubling quotes commutes with dropping whitespace. */
  lemma {:induction false} NonSpaceOfDoubled(s: string)
    ensures NonSpace(DoubleQuotes(s)) == DoubleQuotes(NonSpace(s))
    decreases |s|
  {
    if |s| > 0 {
      NonSpaceOfDoubled(s[1..]);
      var h := if s[0] == '"' then "\"\"" else [s[0]];
      NonSpaceAppend(h, DoubleQuotes(s[1..]));
      DoubleQuotesAppend(if IsSpace(s[0]) then "" else [s[0]], NonSpace(s[1..]));
    }
  }

  /** Replacing controls and doubling quotes touch different characters, so
      their order does not matter. */
  lemma {:induction false} DoubleQuotesOfControls(u: string)
    ensures DoubleQuotes(ReplaceControls(u)) == ReplaceControls(DoubleQuotes(u))
    decreases |u|
  {
    if |u| > 0 {
      var c := ReplaceControls(u);
      var t := u[1..];
      var h := if u[0] == '"' then "\"\"" else [u[0]];
      assert c[1..] == ReplaceControls(t);
      DoubleQuotesOfControls(t);
      assert DoubleQuotes(u) == h + DoubleQuotes(t);
      assert ReplaceControls(h + DoubleQuotes(t)) == ReplaceControls(h) + ReplaceControls(DoubleQuotes(t));
    }
  }

  lemma {:induction false} DoubleQuotesAppend(a: string, b: string)
    ensures DoubleQuotes(a + b) == DoubleQuotes(a) + DoubleQuotes(b)
    decreases |a|
  {
    if |a| > 0 {
      assert (a + b)[0] == a[0] && (a + b)[1..] == a[1..] + b;
      DoubleQuotesAppend(a[1..], b);
    } else {
      assert a + b == b;
    }
  }

  lemma ConsAssoc(c: char, t: string, r: string)
    ensures [c] + (t + r) == ([c] + t) + r
  {
  }

  lemma ConsParts(a: string, b: string)
    requires |a| > 0
    ensures (a + b)[0] == a[0] && (a + b)[1..] == a[1..] + b
    ensures a == [a[0]] + a[1..]
  {
  }

  /** No character of a could start a match. */
  predicate Plain(a: string)
    decreases |a|
  {
    |a| == 0 || (a[0] != 'h' && a[0] != 'w' && Plain(a[1..]))
  }

  /** Characters that cannot start a match leave the scan untouched. */
  lemma {:induction false} RemoveUrlsPrefix(a: string, b: string)
    requires Plain(a)
    ensures RemoveUrls(a + b) == a + RemoveUrls(b)
    decreases |a|
  {
    if |a| > 0 {
      var t := a[1..];
      var tb := t + b;
      var rb := RemoveUrls(b);
      RemoveUrlsPrefix(t, b);
      assert RemoveUrls(tb) == t + rb;
      StepPlain(a, t, b, tb, rb);
    } else {
      assert a + b == b;
    }
  }

  lemma StepPlain(a: string, t: string, b: string, tb: string, rb: string)
    requires |a| > 0 && a[0] != 'h' && a[0] != 'w' && t == a[1..] && tb == t + b
    requires RemoveUrls(tb) == t + rb
    ensures RemoveUrls(a + b) == a + rb
  {
    var s := a + b;
    ConsParts(a, b);
    NoUrlStart(s);
    ConsAssoc(a[0], t, rb);
  }

  /** A whole URL word followed by whitespace or the end is dropped in one step. */
  lemma RemoveUrlWord(w: string, rest: string)
    requires IsUrlWord(w)
    requires forall k :: 0 <= k < |w| ==> !IsSpace(w[k])
    requires |rest| == 0 || IsSpace(rest[0])
    ensures RemoveUrls(w + rest) == RemoveUrls(rest)
  {
    var s := w + rest;
    WordLength(w, rest);
    assert Token(s) == w;
    UrlMatchIsWord(s);
    assert s[|w|..] == rest;
  }

  lemma CollapseSpaceRun(s: string)
    requires |s| > 0 && IsSpace(s[0])
    ensures CollapseSpaces(s) == " " + CollapseSpaces(s[LeadingSpace(s)..])
  {
  }

  lemma CollapseWordChar(s: string)
    requires |s| > 0 && !IsSpace(s[0])
    ensures CollapseSpaces(s) == [s[0]] + CollapseSpaces(s[1..])
  {
  }

  /** Non-space characters in front pass through collapsing unchanged. */
  lemma {:induction false} CollapsePrefix(a: string, b: string)
    requires forall k :: 0 <= k < |a| ==> !IsSpace(a[k])
    ensures CollapseSpaces(a + b) == a + CollapseSpaces(b)
    decreases |a|
  {
    if |a| > 0 {
      var s := a + b;
      var t := a[1..];
      assert s[0] == a[0] && s[1..] == t + b;
      CollapsePrefix(t, b);
      CollapseWordChar(s);
      ConsAssoc(a[0], t, CollapseSpaces(b));
      assert a == [a[0]] + t;
    } else {
      assert a + b == b;
    }
  }

  lemma DoubleQuotesNoQuote(s: string)
    requires '"' !in s
    ensures DoubleQuotes(s) == s
  {
    if |s| > 0 {
      assert '"' !in s[1..];
      DoubleQuotesNoQuote(s[1..]);
    }
  }

  // ---------------------------------------------------------------------------
  // clean_price
  // ---------------------------------------------------------------------------

  /** Python's `replace('$', '').replace(',', '')`. */
  function DropPriceSymbols(s: string): (r: string)
    ensures '$' !in r && ',' !in r
    decreases |s|
  {
    if |s| == 0 then ""
    else (if s[0] == '$' || s[0] == ',' then "" else [s[0]]) + DropPriceSymbols(s[1..])
  }

  /** Every other character survives, as often as it occurred. */
  lemma {:induction false} DropPriceSymbolsKeeps(c: char, s: string)
    requires c != '$' && c != ','
    ensures Count(c, DropPriceSymbols(s)) == Count(c, s)
    decreases |s|
  {
    if |s| > 0 {
      DropPriceSymbolsKeeps(c, s[1..]);
      CountAppend(c, if s[0] == '$' || s[0] == ',' then "" else [s[0]], DropPriceSymbols(s[1..]));
    }
  }

  /** The text `float()` is given: symbols removed, then stripped. */
  function PriceText(s: string): (r: string)
    ensures '$' !in r && ',' !in r
    ensures |r| > 0 ==> !IsSpace(r[0]) && !IsSpace(r[|r| - 1])
    ensures NonSpace(r) == NonSpace(DropPriceSymbols(s))
    ensures var d := DropPriceSymbols(s);
            exists i, j ::
              && 0 <= i <= j <= |d| && r == d[i..j]
              && (forall k :: 0 <= k < i ==> IsSpace(d[k]))
              && (forall k :: j <= k < |d| ==> IsSpace(d[k]))
  {
    var d := DropPriceSymbols(s);
    StripKeepsOut(d, '$');
    StripKeepsOut(d, ',');
    StripNonSpace(d);
    Strip(d)
  }

  lemma StripKeepsOut(d: string, c: char)
    requires c !in d
    ensures c !in Strip(d)
  {
    var r := Strip(d);
    assert forall k :: 0 <= k < |r| ==> r[k] in d;
  }

  /** `clean_price`: null stays null; empty or unparsable text becomes null;
      anything else is the number the parser reads from the cleaned text.
      It never produces text. */
  function CleanPrice(parse: string -> Option<real>, v: Option<string>): (r: Option<real>)
    ensures v.None? ==> r.None?
    ensures v.Some? && PriceText(v.value) == "" ==> r.None?
    ensures v.Some? && PriceText(v.value) != "" ==> r == parse(PriceText(v.value))
  {
    match v
    case None => None
    case Some(s) =>
      var cleaned := PriceText(s);
      if cleaned == "" then None else parse(cleaned)
  }
}
