/** The manual recovery reader (`read_csv_manual`, transform_data.py): rows are
    already split into fields; a row whose arity disagrees with the header is
    rebuilt by re-joining quote spans, then cut or padded to the header's arity. */
module CsvRepair {
  import opened Strings

  /** A field that opens a quote span: it starts with a quote but does not end with one. */
  predicate Opens(f: string) {
    StartsWith(f, "\"") && !EndsWith(f, "\"")
  }

  /** A field that closes an open span: it ends with a single, undoubled quote. */
  predicate Closes(f: string) {
    EndsWith(f, "\"") && !EndsWith(f, "\"\"")
  }

  /** Number of fields, from the front of fs, that an open span takes in:
      up to and including the first field that closes it, or all of them. */
  function SpanLength(fs: seq<string>): (n: nat)
    ensures n <= |fs|
    ensures forall j :: 0 <= j < n - 1 ==> !Closes(fs[j])
    ensures n < |fs| ==> n > 0 && Closes(fs[n - 1])
    decreases |fs|
  {
    if |fs| == 0 then 0 else if Closes(fs[0]) then 1 else 1 + SpanLength(fs[1..])
  }

  /** The repaired row, span by span: a field that does not open a span is
      kept; one that does is joined with ',' to the fields its span takes in. */
  function Regrouped(row: seq<string>): seq<string>
    decreases |row|
  {
    if |row| == 0 then []
    else if !Opens(row[0]) then [row[0]] + Regrouped(row[1..])
    else
      var n := 1 + SpanLength(row[1..]);
      [Join(row[..n], ",")] + Regrouped(row[n..])
  }

  /** What the loop of `read_csv_manual` still appends, given the fields not
      yet read and whether a span is open with the text collected so far. */
  function Resume(rest: seq<string>, inQuotes: bool, current: string): seq<string>
    decreases |rest|
  {
    if |rest| == 0 then (if inQuotes && current != "" then [current] else [])
    else if inQuotes then
      var cur := if current != "" then current + "," + rest[0] else rest[0];
      if Closes(rest[0]) then [cur] + Resume(rest[1..], false, "") else Resume(rest[1..], true, cur)
    else if Opens(rest[0]) then Resume(rest[1..], true, rest[0])
    else [rest[0]] + Resume(rest[1..], false, "")
  }

  /** Reading a row from the start with no span open builds exactly the
      span-by-span regrouping. */
  lemma {:induction false} ResumeRegroups(row: seq<string>)
    ensures Resume(row, false, "") == Regrouped(row)
    decreases |row|
  {
    if |row| > 0 {
      if Opens(row[0]) {
        var fs := row[1..];
        var n := SpanLength(fs);
        ResumeSpan(fs, row[0]);
        assert [row[0]] + fs[..n] == row[..n + 1];
        assert fs[n..] == row[n + 1..];
        ResumeRegroups(row[n + 1..]);
      } else {
        ResumeRegroups(row[1..]);
      }
    }
  }

  /** An open span with text cur takes in the fields up to the first that
      closes it and is then emitted as one field. */
  lemma {:induction false} ResumeSpan(fs: seq<string>, cur: string)
    requires cur != ""
    ensures var n := SpanLength(fs);
            Resume(fs, true, cur) == [Join([cur] + fs[..n], ",")] + Resume(fs[n..], false, "")
    decreases |fs|
  {
    var n := SpanLength(fs);
    if |fs| == 0 {
      assert [cur] + fs[..n] == [cur];
    } else if Closes(fs[0]) {
      SpanCloses(fs, cur);
    } else {
      var t := fs[1..];
      var c := cur + "," + fs[0];
      var m := SpanLength(t);
      SpanContinues(fs, cur);
      ResumeSpan(t, c);
      JoinMergeFirst(cur, fs[0], t[..m]);
      assert [cur] + fs[..n] == [cur, fs[0]] + t[..m];
    }
  }

  lemma SpanCloses(fs: seq<string>, cur: string)
    requires cur != "" && |fs| > 0 && Closes(fs[0])
    ensures SpanLength(fs) == 1
    ensures Resume(fs, true, cur) == [Join([cur] + fs[..1], ",")] + Resume(fs[1..], false, "")
  {
    assert [cur] + fs[..1] == [cur, fs[0]];
    assert [cur, fs[0]][1..] == [fs[0]];
  }

  lemma SpanContinues(fs: seq<string>, cur: string)
    requires cur != "" && |fs| > 0 && !Closes(fs[0])
    ensures SpanLength(fs) == 1 + SpanLength(fs[1..])
    ensures Resume(fs, true, cur) == Resume(fs[1..], true, cur + "," + fs[0])
    ensures fs[1..][SpanLength(fs[1..])..] == fs[SpanLength(fs)..]
  {
  }

  /** Joining a, b and then xs equals joining `a,b` and then xs. */
  lemma JoinMergeFirst(a: string, b: string, xs: seq<string>)
    ensures Join([a + "," + b] + xs, ",") == Join([a, b] + xs, ",")
  {
    assert ([a, b] + xs)[1..] == [b] + xs;
    if |xs| > 0 {
      assert ([a + "," + b] + xs)[1..] == xs;
      assert ([b] + xs)[1..] == xs;
    }
  }

  /** Re-joins the fields of each quote span with ','. Nothing of the line is
      lost or reordered: the merged row joins back to the original line, a span
      still open at the end of the row is emitted, and a row without an opening
      field comes back unchanged. */
  method MergeQuoteSpans(row: seq<string>) returns (merged: seq<string>)
    ensures merged == Regrouped(row)
    ensures Join(merged, ",") == Join(row, ",")
    ensures |merged| <= |row|
    ensures |merged| == 0 <==> |row| == 0
    ensures (forall j :: 0 <= j < |row| ==> !Opens(row[j])) ==> merged == row
  {
    merged := [];
    var inQuotes := false;
    var current := "";
    var i := 0;
    while i < |row|
      invariant 0 <= i <= |row|
      invariant inQuotes ==> current != ""
      invariant merged + Resume(row[i..], inQuotes, current) == Resume(row, false, "")
    {
      var field := row[i];
      assert row[i..][0] == field && row[i..][1..] == row[i + 1..];
      if inQuotes {
        current := if current != "" then current + "," + field else field;
        if Closes(field) {
          inQuotes := false;
          merged := merged + [current];
          current := "";
        }
      } else {
        if Opens(field) {
          inQuotes := true;
          current := field;
        } else {
          merged := merged + [field];
        }
      }
      i := i + 1;
    }
    if inQuotes && current != "" {
      merged := merged + [current];
    }
    ResumeRegroups(row);
    RegroupedKeepsLine(row);
  }

  /** Regrouping loses and reorders nothing: the groups join back to the
      line, there are no more of them than fields, and a row without an
      opening field is its own regrouping. */
  lemma RegroupedKeepsLine(row: seq<string>)
    ensures Join(Regrouped(row), ",") == Join(row, ",")
    ensures |Regrouped(row)| <= |row|
    ensures |Regrouped(row)| == 0 <==> |row| == 0
    ensures (forall j :: 0 <= j < |row| ==> !Opens(row[j])) ==> Regrouped(row) == row
  {
    RegroupedJoin(row);
    RegroupedLength(row);
    if forall j :: 0 <= j < |row| ==> !Opens(row[j]) {
      RegroupedNoOpener(row);
    }
  }

  lemma {:induction false} RegroupedJoin(row: seq<string>)
    ensures Join(Regrouped(row), ",") == Join(row, ",")
    decreases |row|
  {
    if |row| > 0 {
      var n := RegroupedFront(row);
      var head := Join(row[..n], ",");
      var rest := Regrouped(row[n..]);
      RegroupedJoin(row[n..]);
      if n < |row| {
        RegroupedLength(row[n..]);
        JoinAppend(row[..n], row[n..], ",");
        JoinCons(head, rest, ",");
        assert row == row[..n] + row[n..];
      } else {
        assert row[..n] == row;
      }
    }
  }

  lemma {:induction false} RegroupedLength(row: seq<string>)
    ensures |Regrouped(row)| <= |row|
    ensures |Regrouped(row)| == 0 <==> |row| == 0
    decreases |row|
  {
    if |row| > 0 {
      var n := RegroupedFront(row);
      RegroupedLength(row[n..]);
    }
  }

  lemma {:induction false} RegroupedNoOpener(row: seq<string>)
    requires forall j :: 0 <= j < |row| ==> !Opens(row[j])
    ensures Regrouped(row) == row
    decreases |row|
  {
    if |row| > 0 {
      var n := RegroupedFront(row);
      NoOpenerTail(row);
      RegroupedNoOpener(row[1..]);
    }
  }

  /** The first group of a non-empty row and the rows it leaves. */
  lemma RegroupedFront(row: seq<string>) returns (n: nat)
    requires |row| > 0
    ensures 0 < n <= |row| && (!Opens(row[0]) ==> n == 1)
    ensures Regrouped(row) == [Join(row[..n], ",")] + Regrouped(row[n..])
  {
    n := if Opens(row[0]) then 1 + SpanLength(row[1..]) else 1;
    if !Opens(row[0]) {
      assert row[..1] == [row[0]];
    }
  }

  lemma NoOpenerTail(row: seq<string>)
    requires |row| > 0 && forall j :: 0 <= j < |row| ==> !Opens(row[j])
    ensures forall j :: 0 <= j < |row[1..]| ==> !Opens(row[1..][j])
    ensures row == [row[0]] + row[1..]
  {
    assert forall j :: 0 <= j < |row[1..]| ==> row[1..][j] == row[j + 1];
  }

  /** Truncate to, or pad with empty strings up to, n fields. */
  function FitToArity(row: seq<string>, n: nat): (r: seq<string>)
    ensures |r| == n
    ensures |row| >= n ==> r == row[..n]
    ensures |row| < n ==> r[..|row|] == row && forall k :: |row| <= k < n ==> r[k] == ""
  {
    if |row| > n then row[..n]
    else if |row| < n then row + seq(n - |row|, _ => "")
    else row
  }

  /** r comes out of row by regrouping its fields into no more fields that
      join back to the same line, then cutting or padding to the header. */
  ghost predicate RepairedFrom(header: seq<string>, row: seq<string>, r: seq<string>) {
    exists m :: Join(m, ",") == Join(row, ",") && |m| <= |row| && r == FitToArity(m, |header|)
  }

  /** One row of the recovery tier: rows of the right arity are left alone,
      others are span-merged, then cut or padded with empty strings. */
  method RepairRow(header: seq<string>, row: seq<string>) returns (r: seq<string>)
    ensures |r| == |header|
    ensures |row| == |header| ==> r == row
    ensures (forall j :: 0 <= j < |row| ==> !Opens(row[j])) ==> r == FitToArity(row, |header|)
    ensures exists k :: 0 <= k <= |r|
              && (forall j :: k <= j < |r| ==> r[j] == "")
              && StartsWith(Join(row, ","), Join(r[..k], ","))
    ensures RepairedFrom(header, row, r)
    ensures |row| != |header| ==> r == FitToArity(Regrouped(row), |header|)
  {
    var merged := row;
    if |row| != |header| {
      merged := MergeQuoteSpans(row);
    }
    r := FitToArity(merged, |header|);
    assert Join(merged, ",") == Join(row, ",") && |merged| <= |row| && r == FitToArity(merged, |header|);
    var k := if |merged| < |header| then |merged| else |header|;
    assert r[..k] == merged[..k];
    JoinPrefix(merged, k);
  }

  /** The fields of a prefix join to a prefix of the whole line. */
  lemma {:induction false} JoinPrefix(xs: seq<string>, k: nat)
    requires k <= |xs|
    ensures StartsWith(Join(xs, ","), Join(xs[..k], ","))
    decreases |xs|
  {
    if k == |xs| {
      assert xs[..k] == xs;
    } else if k > 0 {
      JoinPrefix(xs[..|xs| - 1], k);
      assert xs[..|xs| - 1][..k] == xs[..k];
      assert xs == xs[..|xs| - 1] + [xs[|xs| - 1]];
      JoinSnoc(xs[..|xs| - 1], xs[|xs| - 1], ",");
    }
  }

  /** `read_csv_manual` after tokenisation: a header and its rows, repaired row by row. */
  method ReadManual(header: seq<string>, rows: seq<seq<string>>) returns (table: seq<seq<string>>)
    ensures |table| == |rows|
    ensures forall i :: 0 <= i < |table| ==> |table[i]| == |header|
    ensures forall i :: 0 <= i < |rows| && |rows[i]| == |header| ==> table[i] == rows[i]
    ensures forall i :: 0 <= i < |rows| ==> RepairedFrom(header, rows[i], table[i])
    ensures forall i :: 0 <= i < |rows| && |rows[i]| != |header| ==>
              table[i] == FitToArity(Regrouped(rows[i]), |header|)
  {
    table := [];
    var i := 0;
    while i < |rows|
      invariant 0 <= i <= |rows|
      invariant |table| == i
      invariant forall j :: 0 <= j < i ==> |table[j]| == |header|
      invariant forall j :: 0 <= j < i && |rows[j]| == |header| ==> table[j] == rows[j]
      invariant forall j :: 0 <= j < i ==> RepairedFrom(header, rows[j], table[j])
      invariant forall j :: 0 <= j < i && |rows[j]| != |header| ==>
                  table[j] == FitToArity(Regrouped(rows[j]), |header|)
    {
      var r := RepairRow(header, rows[i]);
      var next := table + [r];
      forall j | 0 <= j <= i
        ensures |next[j]| == |header| && RepairedFrom(header, rows[j], next[j])
        ensures |rows[j]| == |header| ==> next[j] == rows[j]
        ensures |rows[j]| != |header| ==> next[j] == FitToArity(Regrouped(rows[j]), |header|)
      {
        if j < i {
          assert next[j] == table[j];
        }
      }
      table := next;
      i := i + 1;
    }
  }
}
