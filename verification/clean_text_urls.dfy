/** Cleaning never leaves a URL behind: every step after `remove_urls` only
    turns whitespace into spaces, doubles quotes, merges whitespace runs or
    trims the ends, and none of these can join characters into a new match. */
module CleanTextUrls {
  import opened Strings
  import opened WordSplit
  import opened Sanitize

  /** The regex matches at the front of s exactly when one of its three
      prefixes starts s and is followed by a non-space character. */
  predicate OpensUrl(s: string, p: string) {
    StartsWith(s, p) && |p| < |s| && !IsSpace(s[|p|])
  }

  lemma UrlMatchOpens(s: string)
    ensures UrlMatch(s) > 0 <==> OpensUrl(s, "https://") || OpensUrl(s, "http://") || OpensUrl(s, "www.")
  {
  }

  /** A text that agrees with r on r's first word sees every URL r starts with. */
  lemma HeadCarries(r: string, t: string)
    requires TokenLength(r) <= |t|
    requires forall k :: 0 <= k < TokenLength(r) ==> t[k] == r[k]
    ensures UrlMatch(r) > 0 ==> UrlMatch(t) > 0
  {
    var n := TokenLength(r);
    UrlMatchIsWord(r);
    UrlMatchIsWord(t);
    if n > 0 {
      TokenAtLeast(t, n - 1);
      assert Token(t)[..n] == Token(r);
      if IsUrlWord(Token(r)) {
        UrlWordExtends(Token(r), Token(t));
      }
    }
  }

  lemma UrlFreeTail(t: string, n: nat)
    requires UrlFree(t) && n <= |t|
    ensures UrlFree(t[n..])
  {
    forall i | 0 <= i < |t[n..]|
      ensures UrlMatch(t[n..][i..]) == 0
    {
      assert t[n..][i..] == t[n + i..];
    }
  }

  lemma ReplaceControlsUrlFree(t: string)
    requires UrlFree(t)
    ensures UrlFree(ReplaceControls(t))
  {
    var r := ReplaceControls(t);
    forall i | 0 <= i < |r|
      ensures UrlMatch(r[i..]) == 0
    {
      HeadCarries(r[i..], t[i..]);
    }
  }

  /** A quote-free prefix of the doubled text is a prefix of the original,
      and what follows it is the doubled rest. */
  lemma {:induction false} DoubleQuotesPrefix(t: string, p: string)
    requires '"' !in p && StartsWith(DoubleQuotes(t), p)
    ensures StartsWith(t, p) && DoubleQuotes(t)[|p|..] == DoubleQuotes(t[|p|..])
    decreases |p|
  {
    if |p| > 0 {
      var d := DoubleQuotes(t);
      assert d[0] == p[0];
      assert p[1..] == d[1..][..|p| - 1];
      assert '"' !in p[1..];
      DoubleQuotesPrefix(t[1..], p[1..]);
      assert t[1..][|p| - 1..] == t[|p|..];
    }
  }

  lemma OpensThroughDoubling(t: string, p: string)
    requires '"' !in p && OpensUrl(DoubleQuotes(t), p)
    ensures OpensUrl(t, p)
  {
    var d := DoubleQuotes(t);
    DoubleQuotesPrefix(t, p);
    var u := t[|p|..];
    assert |u| > 0 && d[|p|] == u[0];
  }

  lemma DoubleQuotesHead(t: string)
    ensures UrlMatch(DoubleQuotes(t)) > 0 ==> UrlMatch(t) > 0
  {
    var d := DoubleQuotes(t);
    UrlMatchOpens(d);
    UrlMatchOpens(t);
    if OpensUrl(d, "https://") {
      OpensThroughDoubling(t, "https://");
    } else if OpensUrl(d, "http://") {
      OpensThroughDoubling(t, "http://");
    } else if OpensUrl(d, "www.") {
      OpensThroughDoubling(t, "www.");
    }
  }

  lemma {:induction false} DoubleQuotesUrlFree(t: string)
    requires UrlFree(t)
    ensures UrlFree(DoubleQuotes(t))
    decreases |t|
  {
    if |t| > 0 {
      var h := if t[0] == '"' then "\"\"" else [t[0]];
      var rest := DoubleQuotes(t[1..]);
      var d := DoubleQuotes(t);
      UrlFreeTail(t, 1);
      DoubleQuotesUrlFree(t[1..]);
      forall j | 0 <= j < |d|
        ensures UrlMatch(d[j..]) == 0
      {
        if j >= |h| {
          assert d[j..] == rest[j - |h|..];
        } else if t[0] == '"' {
          NoUrlStart(d[j..]);
        } else {
          assert t[0..] == t && d[0..] == d;
          DoubleQuotesHead(t);
        }
      }
    }
  }

  /** A whitespace-free prefix of the collapsed text is a prefix of the original. */
  lemma {:induction false} CollapsePrefixOf(t: string, p: string)
    requires forall k :: 0 <= k < |p| ==> !IsSpace(p[k])
    requires StartsWith(CollapseSpaces(t), p)
    ensures StartsWith(t, p)
    decreases |p|
  {
    if |p| > 0 {
      var c := CollapseSpaces(t);
      assert c[0] == p[0];
      assert p[1..] == c[1..][..|p| - 1];
      CollapsePrefixOf(t[1..], p[1..]);
    }
  }

  lemma CollapseHead(t: string)
    ensures UrlMatch(CollapseSpaces(t)) > 0 ==> UrlMatch(t) > 0
  {
    var c := CollapseSpaces(t);
    var n := TokenLength(c);
    var w := c[..n];
    assert forall k :: 0 <= k < |w| ==> w[k] == c[k];
    CollapsePrefixOf(t, w);
    assert forall k :: 0 <= k < n ==> t[k] == t[..n][k] == w[k];
    HeadCarries(c, t);
  }

  lemma {:induction false} CollapseUrlFree(t: string)
    requires UrlFree(t)
    ensures UrlFree(CollapseSpaces(t))
    decreases |t|
  {
    if |t| > 0 {
      var c := CollapseSpaces(t);
      var n := if IsSpace(t[0]) then LeadingSpace(t) else 1;
      var rest := CollapseSpaces(t[n..]);
      UrlFreeTail(t, n);
      CollapseUrlFree(t[n..]);
      assert c[1..] == rest;
      forall j | 0 <= j < |c|
        ensures UrlMatch(c[j..]) == 0
      {
        if j >= 1 {
          assert c[j..] == rest[j - 1..];
        } else if IsSpace(t[0]) {
          NoUrlStart(c[j..]);
        } else {
          assert t[0..] == t && c[0..] == c;
          CollapseHead(t);
        }
      }
    }
  }

  lemma SliceHead(w: string, a: nat, b: nat, k: nat)
    requires a <= b <= |w| && k < b - a
    ensures UrlMatch(w[a..b][k..]) > 0 ==> UrlMatch(w[a + k..]) > 0
  {
    var r := w[a..b][k..];
    assert r == w[a + k..][..|r|];
    HeadCarries(r, w[a + k..]);
  }

  lemma StripUrlFree(w: string)
    requires UrlFree(w)
    ensures UrlFree(Strip(w))
  {
    var r := Strip(w);
    var i, j :| 0 <= i <= j <= |w| && r == w[i..j];
    forall k | 0 <= k < |r|
      ensures UrlMatch(r[k..]) == 0
    {
      SliceHead(w, i, j, k);
    }
  }

  /** Whatever the input, the cleaned text holds no URL. */
  lemma CleanTextUrlFree(s: string)
    ensures UrlFree(CleanText(s))
  {
    var u := RemoveUrls(s);
    var c := ReplaceControls(u);
    var d := DoubleQuotes(c);
    var w := CollapseSpaces(d);
    assert CleanText(s) == Strip(w);
    RemoveUrlsLeavesNone(s);
    ReplaceControlsUrlFree(u);
    DoubleQuotesUrlFree(c);
    CollapseUrlFree(d);
    StripUrlFree(w);
  }
}
