/** Laws of `clean_text_field` over whole families of inputs: where it is a
    fixed point, why a quote makes it grow on every application, and how a
    URL between two words disappears. The idempotence laws range over every
    input; the URL law ranges over plain words, which hold no 'h' or 'w' and
    so can never start a match. */
module CleanTextLaws {
  import opened Strings
  import opened WordSplit
  import opened Sanitize
  import opened CleanTextUrls

  /** On text without URLs cleaning doubles the quotes exactly. */
  lemma CleanTextQuotes(s: string)
    requires UrlFree(s)
    ensures Count('"', CleanText(s)) == 2 * Count('"', s)
  {
    RemoveUrlsKeepsFree(s);
    CleanTextContent(s);
  }

  /** A quote that survives URL removal keeps cleaning from being idempotent:
      the cleaned text holds no URL, so the next application doubles every
      one of its quotes again. */
  lemma CleanTextNotIdempotent(s: string)
    requires '"' in RemoveUrls(s)
    ensures CleanText(CleanText(s)) != CleanText(s)
  {
    var r := CleanText(s);
    CountIn('"', RemoveUrls(s));
    CleanTextContent(s);
    CleanTextUrlFree(s);
    CleanTextQuotes(r);
  }

  /** When no quote survives URL removal, cleaning once is enough. */
  lemma CleanTextIdempotentWithoutQuotes(s: string)
    requires '"' !in RemoveUrls(s)
    ensures CleanText(CleanText(s)) == CleanText(s)
  {
    var r := CleanText(s);
    CountIn('"', RemoveUrls(s));
    CleanTextContent(s);
    CountIn('"', r);
    CleanTextUrlFree(s);
    CleanTextKeepsClean(r);
  }

  /** Cleaning is a fixed point on its own output exactly when no quote is
      left after the URLs are removed. */
  lemma CleanTextIdempotentIff(s: string)
    ensures CleanText(CleanText(s)) == CleanText(s) <==> '"' !in RemoveUrls(s)
  {
    if '"' in RemoveUrls(s) {
      CleanTextNotIdempotent(s);
    } else {
      CleanTextIdempotentWithoutQuotes(s);
    }
  }

  /** A lone quote meets the first law and the empty text the second, so
      neither law is vacuous. */
  lemma QuoteWitnesses()
    ensures '"' in RemoveUrls("\"") && CleanText(CleanText("\"")) != CleanText("\"")
    ensures '"' !in RemoveUrls("") && CleanText(CleanText("")) == CleanText("")
  {
    NoUrlStart("\"");
    CleanTextNotIdempotent("\"");
    CleanTextIdempotentWithoutQuotes("");
  }

  lemma RegroupAroundUrl(x: string, u: string, y: string)
    ensures x + " " + u + " " + y == (x + " ") + (u + (" " + y))
    ensures (x + " ") + (" " + y) == x + "  " + y
    ensures (" " + y) + "" == " " + y && (" " + y)[0] == ' '
    ensures Plain(" ")
  {
  }

  lemma {:induction false} PlainConcat(a: string, b: string)
    requires Plain(a) && Plain(b)
    ensures Plain(a + b)
    decreases |a|
  {
    if |a| > 0 {
      assert (a + b)[0] == a[0] && (a + b)[1..] == a[1..] + b;
      PlainConcat(a[1..], b);
    } else {
      assert a + b == b;
    }
  }

  /** A URL between two words is cut out before the spaces are collapsed, as
      "See https://x.com today" cleans to "See today": for every pair of plain
      words around a URL word, the URL goes first and the two spaces left
      around it become one. */
  lemma CleanAroundUrl(x: string, u: string, y: string)
    requires |x| > 0 && |y| > 0 && Plain(x) && Plain(y) && '"' !in x && '"' !in y
    requires forall k :: 0 <= k < |x| ==> !IsSpace(x[k])
    requires forall k :: 0 <= k < |y| ==> !IsSpace(y[k])
    requires IsUrlWord(u) && forall k :: 0 <= k < |u| ==> !IsSpace(u[k])
    ensures CleanText(x + " " + u + " " + y) == x + " " + y
  {
    UrlStep(x, u, y);
    var m := x + "  " + y;
    ControlStep(x, y);
    DoubleQuotesNoQuote(m);
    CollapseStep(x, y);
    StripTrimmed(x + " " + y);
  }

  lemma UrlStep(x: string, u: string, y: string)
    requires Plain(x) && Plain(y)
    requires IsUrlWord(u) && forall k :: 0 <= k < |u| ==> !IsSpace(u[k])
    ensures RemoveUrls(x + " " + u + " " + y) == x + "  " + y
  {
    var a, b := x + " ", " " + y;
    RegroupAroundUrl(x, u, y);
    PlainConcat(x, " ");
    PlainConcat(" ", y);
    RemoveUrlsPrefix(a, u + b);
    RemoveUrlWord(u, b);
    RemoveUrlsPrefix(b, "");
  }

  lemma ControlStep(x: string, y: string)
    requires forall k :: 0 <= k < |x| ==> !IsSpace(x[k])
    requires forall k :: 0 <= k < |y| ==> !IsSpace(y[k])
    ensures ReplaceControls(x + "  " + y) == x + "  " + y
  {
    var m := x + "  " + y;
    forall k | 0 <= k < |m|
      ensures !IsControl(m[k])
    {
      if k < |x| {
        assert m[k] == x[k];
      } else if k >= |x| + 2 {
        assert m[k] == y[k - |x| - 2];
      }
    }
    ReplaceControlsNone(m);
  }

  /** Two spaces between a word and a word collapse to one. */
  lemma CollapseStep(x: string, y: string)
    requires |y| > 0
    requires forall k :: 0 <= k < |x| ==> !IsSpace(x[k])
    requires forall k :: 0 <= k < |y| ==> !IsSpace(y[k])
    ensures CollapseSpaces(x + "  " + y) == x + " " + y
  {
    var g := "  " + y;
    TwoSpaces(x, y);
    CollapsePrefix(x, g);
    TwoSpacesCollapse(y);
    ConcatAssoc(x, " ", y);
  }

  lemma ConcatAssoc(a: string, b: string, c: string)
    ensures a + (b + c) == a + b + c
  {
  }

  lemma TwoSpacesCollapse(y: string)
    requires |y| > 0
    requires forall k :: 0 <= k < |y| ==> !IsSpace(y[k])
    ensures CollapseSpaces("  " + y) == " " + y
  {
    var g := "  " + y;
    TwoSpaces("", y);
    CollapseSpaceRun(g);
    CollapsedFixed(y);
  }

  lemma TwoSpaces(x: string, y: string)
    requires |y| > 0 && !IsSpace(y[0])
    ensures x + "  " + y == x + ("  " + y)
    ensures LeadingSpace("  " + y) == 2 && ("  " + y)[2..] == y
  {
    var g := "  " + y;
    assert g[1..][1..] == y;
  }
}
