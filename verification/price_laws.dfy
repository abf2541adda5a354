/** Laws of `clean_price`: which inputs become null whatever the number
    reader does, that symbols and separators are invisible to it, and the
    reading of a grouped price such as "$1,200.50" with a plain decimal reader
    standing in for Python's `float`. */
module PriceLaws {
  import opened Wrappers
  import opened Strings
  import opened Sanitize

  lemma {:induction false} DropPriceSymbolsAppend(a: string, b: string)
    ensures DropPriceSymbols(a + b) == DropPriceSymbols(a) + DropPriceSymbols(b)
    decreases |a|
  {
    if |a| > 0 {
      assert (a + b)[0] == a[0] && (a + b)[1..] == a[1..] + b;
      DropPriceSymbolsAppend(a[1..], b);
    } else {
      assert a + b == b;
    }
  }

  lemma {:induction false} DropPriceSymbolsNone(s: string)
    requires '$' !in s && ',' !in s
    ensures DropPriceSymbols(s) == s
    decreases |s|
  {
    if |s| > 0 {
      assert '$' !in s[1..] && ',' !in s[1..];
      DropPriceSymbolsNone(s[1..]);
      assert s == [s[0]] + s[1..];
    }
  }

  /** Symbols removed up front make no difference: the price read is the same. */
  lemma CleanPriceIgnoresSymbols(parse: string -> Option<real>, s: string)
    ensures CleanPrice(parse, Some(DropPriceSymbols(s))) == CleanPrice(parse, Some(s))
  {
    DropPriceSymbolsNone(DropPriceSymbols(s));
  }

  /** Text made only of currency signs, separators and whitespace is null,
      whatever the number reader would have said. */
  lemma {:induction false} CleanPriceOnlySymbols(parse: string -> Option<real>, s: string)
    requires forall k :: 0 <= k < |s| ==> s[k] == '$' || s[k] == ',' || IsSpace(s[k])
    ensures CleanPrice(parse, Some(s)) == None
  {
    OnlySpacesLeft(s);
    var d := DropPriceSymbols(s);
    assert LeadingSpace(d) == |d|;
  }

  lemma {:induction false} OnlySpacesLeft(s: string)
    requires forall k :: 0 <= k < |s| ==> s[k] == '$' || s[k] == ',' || IsSpace(s[k])
    ensures forall k :: 0 <= k < |DropPriceSymbols(s)| ==> IsSpace(DropPriceSymbols(s)[k])
    ensures LeadingSpace(DropPriceSymbols(s)) == |DropPriceSymbols(s)|
    decreases |s|
  {
    if |s| > 0 {
      OnlySpacesLeft(s[1..]);
    }
  }

  /** A grouped price: a currency sign, digits, a
      thousands separator and more digits read as the digits run together. */
  lemma CleanPriceGrouped(parse: string -> Option<real>, a: string, b: string)
    requires '$' !in a && ',' !in a && '$' !in b && ',' !in b
    requires |a| > 0 && |b| > 0 && !IsSpace(a[0]) && !IsSpace(b[|b| - 1])
    ensures CleanPrice(parse, Some("$" + a + "," + b)) == parse(a + b)
  {
    DropGrouped(a, b);
    CleanPriceReads(parse, "$" + a + "," + b, a + b);
  }

  /** Text whose symbols drop away to leave t, with no whitespace at the
      ends of t, is read as t. */
  lemma CleanPriceReads(parse: string -> Option<real>, s: string, t: string)
    requires DropPriceSymbols(s) == t && |t| > 0 && !IsSpace(t[0]) && !IsSpace(t[|t| - 1])
    ensures CleanPrice(parse, Some(s)) == parse(t)
  {
    StripTrimmed(t);
  }

  lemma DropGrouped(a: string, b: string)
    requires '$' !in a && ',' !in a && '$' !in b && ',' !in b
    requires |a| > 0 && |b| > 0 && !IsSpace(a[0]) && !IsSpace(b[|b| - 1])
    ensures DropPriceSymbols("$" + a + "," + b) == a + b
    ensures !IsSpace((a + b)[0]) && !IsSpace((a + b)[|a + b| - 1])
  {
    var x, y := "$" + a, "," + b;
    GroupedShape(a, b);
    DropPriceSymbolsAppend(x, y);
    DropLead('$', a);
    DropLead(',', b);
  }

  lemma GroupedShape(a: string, b: string)
    requires |a| > 0 && |b| > 0
    ensures "$" + a + "," + b == ("$" + a) + ("," + b)
    ensures (a + b)[0] == a[0] && (a + b)[|a + b| - 1] == b[|b| - 1]
  {
  }

  /** A leading symbol goes and the rest, free of symbols, stays. */
  lemma DropLead(c: char, a: string)
    requires c == '$' || c == ','
    requires '$' !in a && ',' !in a
    ensures DropPriceSymbols([c] + a) == a
  {
    assert ([c] + a)[1..] == a;
    DropPriceSymbolsNone(a);
  }

  // A decimal reader standing in for `float` on digit-and-point text.

  function DigitValue(c: char): nat {
    if '0' <= c <= '9' then (c as int - '0' as int) as nat else 0
  }

  predicate AllDigits(s: string) {
    forall k :: 0 <= k < |s| ==> '0' <= s[k] <= '9'
  }

  function DigitsValue(s: string): nat
    decreases |s|
  {
    if |s| == 0 then 0 else DigitsValue(s[..|s| - 1]) * 10 + DigitValue(s[|s| - 1])
  }

  function Pow10(n: nat): (p: nat)
    ensures p >= 1
  {
    if n == 0 then 1 else 10 * Pow10(n - 1)
  }

  /** The number written `whole.frac`. */
  function DecimalValue(whole: string, frac: string): (v: real)
    ensures v >= 0.0
  {
    DigitsValue(whole) as real + DigitsValue(frac) as real / Pow10(|frac|) as real
  }

  /** Reads `digits`, `digits.`, `.digits` or `digits.digits`; anything else is unparsable. */
  function ParseDecimal(s: string): (r: Option<real>)
    ensures r.Some? ==> r.value >= 0.0
    ensures r.Some? ==> s != "" && forall k :: 0 <= k < |s| ==> s[k] == '.' || '0' <= s[k] <= '9'
  {
    var parts := Split(s, '.');
    if |parts| == 1 && s != "" && AllDigits(s) then Some(DigitsValue(s) as real)
    else if |parts| == 2 && parts[0] + parts[1] != "" && AllDigits(parts[0]) && AllDigits(parts[1]) then
      SplitChars(parts, s);
      Some(DecimalValue(parts[0], parts[1]))
    else None
  }

  lemma SplitChars(parts: seq<string>, s: string)
    requires |parts| == 2 && Join(parts, ".") == s
    requires AllDigits(parts[0]) && AllDigits(parts[1])
    ensures forall k :: 0 <= k < |s| ==> s[k] == '.' || '0' <= s[k] <= '9'
  {
    assert s == parts[0] + "." + parts[1];
  }

  /** A digit run, a point and a digit run read as whole part plus fraction. */
  lemma ParseDecimalPoint(a: string, b: string)
    requires AllDigits(a) && AllDigits(b) && a + b != ""
    ensures ParseDecimal(a + "." + b)
              == Some(DecimalValue(a, b))
  {
    SplitAtPoint(a, b);
  }

  lemma SplitAtPoint(a: string, b: string)
    requires AllDigits(a) && AllDigits(b)
    ensures Split(a + "." + b, '.') == [a, b]
  {
    assert '.' !in a by { assert forall k :: 0 <= k < |a| ==> a[k] != '.'; }
    assert '.' !in b by { assert forall k :: 0 <= k < |b| ==> b[k] != '.'; }
    SplitConcat(a, b, '.');
    SplitNoSep(a, '.');
    SplitNoSep(b, '.');
  }

  /** A grouped decimal price: "$1,200.50" has the form "$" a "," c "." f with
      digit runs a, c and f, and reads as the number (a c).f, that is 1200.5. */
  lemma CleanPriceDecimal(a: string, c: string, f: string)
    requires |a| > 0 && |f| > 0 && AllDigits(a) && AllDigits(c) && AllDigits(f)
    ensures CleanPrice(ParseDecimal, Some("$" + a + "," + (c + "." + f))) == Some(DecimalValue(a + c, f))
  {
    var b := c + "." + f;
    DigitsOnly(a);
    DigitsTail(c, f);
    CleanPriceGrouped(ParseDecimal, a, b);
    DigitsConcat(a, c, f);
    ParseDecimalPoint(a + c, f);
  }

  lemma DigitsConcat(a: string, c: string, f: string)
    requires AllDigits(a) && AllDigits(c)
    ensures AllDigits(a + c) && a + (c + "." + f) == (a + c) + "." + f
  {
    assert forall k :: 0 <= k < |a + c| ==> (a + c)[k] in a + c;
  }

  lemma DigitsOnly(a: string)
    requires |a| > 0 && AllDigits(a)
    ensures '$' !in a && ',' !in a && !IsSpace(a[0]) && !IsSpace(a[|a| - 1])
  {
    assert forall k :: 0 <= k < |a| ==> a[k] != '$' && a[k] != ',';
  }

  lemma DigitsTail(c: string, f: string)
    requires |f| > 0 && AllDigits(c) && AllDigits(f)
    ensures '$' !in c + "." + f && ',' !in c + "." + f
    ensures |c + "." + f| > 0 && !IsSpace((c + "." + f)[|c + "." + f| - 1])
  {
    var b := c + "." + f;
    assert forall k :: 0 <= k < |b| ==> b[k] != '$' && b[k] != ',' by {
      assert forall k :: 0 <= k < |c| ==> b[k] == c[k];
      assert forall k :: 0 <= k < |f| ==> b[|c| + 1 + k] == f[k];
    }
    assert b[|b| - 1] == f[|f| - 1];
  }

  /** A word without digits, such as "free", is unparsable and so null. */
  lemma CleanPriceWord(w: string)
    requires |w| > 0 && forall k :: 0 <= k < |w| ==> 'a' <= w[k] <= 'z'
    ensures CleanPrice(ParseDecimal, Some(w)) == None
  {
    DropPriceSymbolsNone(w);
    CleanPriceReads(ParseDecimal, w, w);
  }

  /** "$1,200.50" reads as 1200.5. */
  lemma CleanPriceExample()
    ensures CleanPrice(ParseDecimal, Some("$1,200.50")) == Some(1200.5)
  {
    ExampleDigits();
    ExampleText();
    CleanPriceDecimal("1", "200", "50");
  }

  lemma ExampleText()
    ensures "$" + "1" + "," + ("200" + "." + "50") == "$1,200.50"
  {
  }

  lemma ExampleDigits()
    ensures AllDigits("1") && AllDigits("200") && AllDigits("50")
    ensures DecimalValue("1" + "200", "50") == 1200.5
  {
    assert "1" + "200" == "1200";
    assert "1200"[..3] == "120" && "120"[..2] == "12" && "12"[..1] == "1" && "1"[..0] == "";
    assert "50"[..1] == "5" && "5"[..0] == "";
    assert DigitsValue("1200") == 1200;
    assert DigitsValue("50") == 50;
    assert Pow10(2) == 100;
  }
}
