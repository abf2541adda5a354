/** Python's `s.split()` with no separator: the maximal runs of non-whitespace,
    in order. Whitespace runs of any length and kind separate the same words,
    which is what lets the cleaning steps be stated as "the words, single-spaced". */
module WordSplit {
  import opened Strings

  /** Length of the maximal run of non-whitespace at the front of s. */
  function TokenLength(s: string): (n: nat)
    ensures n <= |s|
    ensures forall k :: 0 <= k < n ==> !IsSpace(s[k])
    ensures n < |s| ==> IsSpace(s[n])
    decreases |s|
  {
    if |s| == 0 || IsSpace(s[0]) then 0 else 1 + TokenLength(s[1..])
  }

  /** A word followed by whitespace or the end is exactly the front run. */
  lemma {:induction false} WordLength(w: string, rest: string)
    requires forall k :: 0 <= k < |w| ==> !IsSpace(w[k])
    requires |rest| == 0 || IsSpace(rest[0])
    ensures TokenLength(w + rest) == |w|
    decreases |w|
  {
    if |w| > 0 {
      assert (w + rest)[0] == w[0] && (w + rest)[1..] == w[1..] + rest;
      WordLength(w[1..], rest);
    } else {
      assert w + rest == rest;
    }
  }

  /** A non-empty text without whitespace. */
  predicate IsWord(w: string) {
    |w| > 0 && forall k :: 0 <= k < |w| ==> !IsSpace(w[k])
  }

  /** Python's `s.split()`. */
  function Words(s: string): (ws: seq<string>)
    ensures forall i :: 0 <= i < |ws| ==> IsWord(ws[i])
    decreases |s|
  {
    if |s| == 0 then []
    else if IsSpace(s[0]) then Words(s[1..])
    else
      var n := TokenLength(s);
      [s[..n]] + Words(s[n..])
  }

  /** Text that is already collapsed: only plain spaces, never two in a row. */
  predicate Collapsed(s: string) {
    && (forall k :: 0 <= k < |s| && IsSpace(s[k]) ==> s[k] == ' ')
    && (forall k :: 0 <= k < |s| - 1 ==> !(IsSpace(s[k]) && IsSpace(s[k + 1])))
  }

  predicate Trimmed(s: string) {
    |s| > 0 ==> !IsSpace(s[0]) && !IsSpace(s[|s| - 1])
  }

  /** Whitespace in front separates nothing. */
  lemma {:induction false} WordsAfterSpace(sp: string, y: string)
    requires forall k :: 0 <= k < |sp| ==> IsSpace(sp[k])
    ensures Words(sp + y) == Words(y)
    decreases |sp|
  {
    if |sp| > 0 {
      assert (sp + y)[1..] == sp[1..] + y;
      WordsAfterSpace(sp[1..], y);
    } else {
      assert sp + y == y;
    }
  }

  /** A word followed by whitespace or the end is the first word. */
  lemma WordsAfterWord(w: string, y: string)
    requires IsWord(w)
    requires |y| == 0 || IsSpace(y[0])
    ensures Words(w + y) == [w] + Words(y)
  {
    WordLength(w, y);
    assert (w + y)[..|w|] == w;
    assert (w + y)[|w|..] == y;
  }

  /** Whitespace at the end separates nothing either. */
  lemma {:induction false} WordsBeforeSpace(a: string, sp: string)
    requires forall k :: 0 <= k < |sp| ==> IsSpace(sp[k])
    ensures Words(a + sp) == Words(a)
    decreases |a|
  {
    if |a| == 0 {
      assert a + sp == sp + "";
      WordsAfterSpace(sp, "");
    } else if IsSpace(a[0]) {
      assert (a + sp)[1..] == a[1..] + sp;
      WordsBeforeSpace(a[1..], sp);
    } else {
      var n := TokenLength(a);
      var w, y := a[..n], a[n..];
      assert a == w + y;
      assert a + sp == w + (y + sp);
      WordsBeforeSpace(y, sp);
      WordsAfterWord(w, y + sp);
      WordsAfterWord(w, y);
    }
  }

  /** Stripping the ends keeps every word. */
  lemma WordsOfStrip(s: string)
    ensures Words(Strip(s)) == Words(s)
  {
    var i, j :|
      && 0 <= i <= j <= |s| && Strip(s) == s[i..j]
      && (forall k :: 0 <= k < i ==> IsSpace(s[k]))
      && (forall k :: j <= k < |s| ==> IsSpace(s[k]));
    assert s == s[..i] + (s[i..j] + s[j..]);
    WordsAfterSpace(s[..i], s[i..j] + s[j..]);
    WordsBeforeSpace(s[i..j], s[j..]);
  }

  /** A non-space character in front either starts a word of its own or
      joins the first word of what follows. */
  lemma WordsCons(x: char, a: string)
    requires !IsSpace(x)
    ensures |a| == 0 || IsSpace(a[0]) ==> Words([x] + a) == [[x]] + Words(a)
    ensures |a| > 0 && !IsSpace(a[0]) ==>
              |Words(a)| > 0 && Words([x] + a) == [[x] + Words(a)[0]] + Words(a)[1..]
  {
    if |a| == 0 || IsSpace(a[0]) {
      WordsAfterWord([x], a);
    } else {
      var n := TokenLength(a);
      var w, y := a[..n], a[n..];
      assert a == w + y;
      assert [x] + a == ([x] + w) + y;
      WordsAfterWord(w, y);
      WordsAfterWord([x] + w, y);
    }
  }

  /** Replacing the leading whitespace run of s by one space keeps the words,
      given that what follows has the words of the rest. */
  lemma WordsAfterRun(s: string, n: nat, c: string)
    requires n <= |s| && forall k :: 0 <= k < n ==> IsSpace(s[k])
    requires Words(c) == Words(s[n..])
    ensures Words(" " + c) == Words(s)
  {
    assert s == s[..n] + s[n..];
    WordsAfterSpace(s[..n], s[n..]);
    WordsAfterSpace(" ", c);
  }

  /** Keeping a leading non-space character keeps the words, given that what
      follows has the words of the rest and starts the same way. */
  lemma WordsAfterChar(s: string, c: string)
    requires |s| > 0 && !IsSpace(s[0])
    requires Words(c) == Words(s[1..])
    requires |c| > 0 <==> |s| > 1
    requires |c| > 0 ==> (IsSpace(c[0]) <==> IsSpace(s[1]))
    ensures Words([s[0]] + c) == Words(s)
  {
    assert s == [s[0]] + s[1..];
    if |c| == 0 {
      WordsAfterWord([s[0]], s[1..]);
      WordsAfterWord([s[0]], c);
    } else if IsSpace(c[0]) {
      WordsAfterWord([s[0]], s[1..]);
      WordsAfterWord([s[0]], c);
    } else {
      WordsCons(s[0], s[1..]);
      WordsCons(s[0], c);
    }
  }

  /** Single-spaced text without surrounding whitespace is its words joined
      by single spaces. */
  lemma {:induction false} CollapsedIsJoin(t: string)
    requires Collapsed(t) && Trimmed(t)
    ensures t == Join(Words(t), " ")
    decreases |t|
  {
    if |t| > 0 {
      var n := TokenLength(t);
      var w, y := t[..n], t[n..];
      assert t == w + y;
      WordsAfterWord(w, y);
      if |y| == 0 {
        assert Words(t) == [w];
      } else {
        var z := SpaceThenRest(t, n);
        var ws := Words(z);
        CollapsedIsJoin(z);
        WordsAfterSpace(" ", z);
        assert Words(t) == [w] + ws;
        JoinCons(w, ws, " ");
        assert t == w + " " + z;
      }
    }
  }

  /** Inside single-spaced trimmed text, a word that does not end the text is
      followed by one space and then more single-spaced trimmed text. */
  lemma SpaceThenRest(t: string, n: nat) returns (z: string)
    requires Collapsed(t) && Trimmed(t)
    requires 0 < n < |t| && n == TokenLength(t)
    ensures t[n..] == " " + z && |z| > 0 && !IsSpace(z[0])
    ensures Collapsed(z) && Trimmed(z) && |z| < |t| && |Words(z)| > 0
  {
    assert t[|t| - 1] != t[n];
    z := t[n + 1..];
    CollapsedSuffix(t, n + 1);
  }

  lemma CollapsedSuffix(t: string, i: nat)
    requires Collapsed(t) && i <= |t|
    ensures Collapsed(t[i..])
  {
    var z := t[i..];
    assert forall k :: 0 <= k < |z| ==> z[k] == t[i + k];
  }
}
