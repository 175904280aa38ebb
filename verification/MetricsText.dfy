/** The exposition text of the metrics: cumulative rows, and labels a scraper reads back. */
module MetricsText {
  import opened Basics
  import opened HttpMetrics

  // ---- Histogram rows ----

  datatype Row =
    | BucketRow(upper: real, value: nat)
    | InfinityRow(value: nat)
    | SumRow(total: real)
    | CountRow(value: nat)

  /** `render`, for one histogram. */
  method RenderHistogram(h: Histogram) returns (rows: seq<Row>)
    requires |h.buckets| == |BUCKETS|
    ensures |rows| == |BUCKETS| + 3
    ensures forall i :: 0 <= i < |BUCKETS| ==> rows[i] == BucketRow(BUCKETS[i], UpTo(h.buckets, i + 1))
    ensures rows[|BUCKETS|..] == [InfinityRow(h.count), SumRow(h.sum), CountRow(h.count)]
  {
    var cumulative := 0;
    rows := [];
    for i := 0 to |BUCKETS|
      invariant |rows| == i && cumulative == UpTo(h.buckets, i)
      invariant forall j :: 0 <= j < i ==> rows[j] == BucketRow(BUCKETS[j], UpTo(h.buckets, j + 1))
    {
      cumulative := cumulative + h.buckets[i];
      rows := rows + [BucketRow(BUCKETS[i], cumulative)];
    }
    rows := rows + [InfinityRow(h.count), SumRow(h.sum), CountRow(h.count)];
  }

  lemma {:induction false} MethodLabelHasNoNul(raw: string)
    ensures NUL !in MethodLabel(raw)
  {
    var m := MethodLabel(raw);
    assert m == "GET" || m == "POST" || m == "PUT" || m == "PATCH" || m == "DELETE" || m == "HEAD" || m == "OPTIONS"
        || m == "other";
    hide MethodLabel;
  }

  // ---- Labels ----

  /** `replace` of every `c`. */
  function Replace(s: string, c: char, sub: string): string {
    if s == "" then "" else (if s[0] == c then sub else [s[0]]) + Replace(s[1..], c, sub)
  }

  function EscapeLabel(value: string): string {
    Replace(Replace(Replace(value, '\\', "\\\\"), '\n', "\\n"), '"', "\\\"")
  }

  lemma {:induction false} ReplaceAppend(s: string, t: string, c: char, sub: string)
    ensures Replace(s + t, c, sub) == Replace(s, c, sub) + Replace(t, c, sub)
  {
    if s == "" {
      assert s + t == t;
    } else {
      assert (s + t)[1..] == s[1..] + t;
      ReplaceAppend(s[1..], t, c, sub);
    }
  }

  function EscapeChar(c: char): string {
    if c == '\\' then "\\\\" else if c == '\n' then "\\n" else if c == '"' then "\\\"" else [c]
  }

  function EscapeEach(value: string): string {
    if value == "" then "" else EscapeChar(value[0]) + EscapeEach(value[1..])
  }

  lemma {:induction false} ReplaceOne(c: char, d: char, sub: string)
    ensures Replace([c], d, sub) == if c == d then sub else [c]
  {
    assert [c][1..] == "";
    assert Replace([c], d, sub) == (if c == d then sub else [c]) + Replace("", d, sub);
  }

  lemma {:induction false} ReplaceTwo(c: char, e: char, d: char, sub: string)
    requires c != d && e != d
    ensures Replace([c, e], d, sub) == [c, e]
  {
    assert [c, e] == [c] + [e];
    ReplaceOne(c, d, sub);
    ReplaceOne(e, d, sub);
    ReplaceAppend([c], [e], d, sub);
  }

  lemma {:induction false} EscapeOne(c: char)
    ensures EscapeLabel([c]) == EscapeChar(c)
  {
    hide Replace;
    ReplaceOne(c, '\\', "\\\\");
    ReplaceOne(c, '\n', "\\n");
    ReplaceOne(c, '"', "\\\"");
    ReplaceTwo('\\', '\\', '\n', "\\n");
    ReplaceTwo('\\', '\\', '"', "\\\"");
    ReplaceTwo('\\', 'n', '"', "\\\"");
  }

  /** The three passes together escape each character once: later passes leave the backslashes of earlier ones alone. */
  lemma {:induction false} PassesEscapeEach(value: string)
    ensures EscapeLabel(value) == EscapeEach(value)
  {
    if value != "" {
      var c, rest := value[0], value[1..];
      EscapeOne(c);
      PassesEscapeEach(rest);
      EscapeAppend([c], rest);
      assert value == [c] + rest;
    }
  }

  lemma {:induction false} EscapeAppend(s: string, t: string)
    ensures EscapeLabel(s + t) == EscapeLabel(s) + EscapeLabel(t)
  {
    hide Replace;
    ReplaceAppend(s, t, '\\', "\\\\");
    var a, b := Replace(s, '\\', "\\\\"), Replace(t, '\\', "\\\\");
    ReplaceAppend(a, b, '\n', "\\n");
    ReplaceAppend(Replace(a, '\n', "\\n"), Replace(b, '\n', "\\n"), '"', "\\\"");
  }

  datatype Label = Label(value: string, rest: string)

  /** A scraper after the opening quote: up to the first quote that is not escaped. */
  function ReadLabel(s: string): Option<Label> {
    if s == "" || s[0] == '\n' then None
    else if s[0] == '"' then Some(Label("", s[1..]))
    else if s[0] == '\\' then
      if |s| == 1 then None
      else
        var c := if s[1] == 'n' then '\n' else s[1];
        match ReadLabel(s[2..])
        case None => None
        case Some(read) => Some(Label([c] + read.value, read.rest))
    else
      match ReadLabel(s[1..])
      case None => None
      case Some(read) => Some(Label([s[0]] + read.value, read.rest))
  }

  lemma {:induction false} OneReadsBack(c: char, more: string)
    requires ReadLabel(more).Some?
    ensures var read := ReadLabel(more).value;
            ReadLabel(EscapeChar(c) + more) == Some(Label([c] + read.value, read.rest))
  {
    var s := EscapeChar(c) + more;
    assert s[|EscapeChar(c)|..] == more;
  }

  lemma {:induction false} EachReadsBack(value: string, rest: string)
    ensures ReadLabel(EscapeEach(value) + "\"" + rest) == Some(Label(value, rest))
  {
    if value == "" {
      assert EscapeEach(value) + "\"" + rest == "\"" + rest;
    } else {
      hide ReadLabel, EscapeChar;
      EachReadsBack(value[1..], rest);
      var more := EscapeEach(value[1..]) + "\"" + rest;
      OneReadsBack(value[0], more);
      assert EscapeEach(value) + "\"" + rest == EscapeChar(value[0]) + more;
      assert value == [value[0]] + value[1..];
    }
  }

  /** Whatever is in a label, the scraper reads it back and goes on where it ends. */
  lemma {:induction false} LabelReadsBack(value: string, rest: string)
    ensures ReadLabel(EscapeLabel(value) + "\"" + rest) == Some(Label(value, rest))
  {
    PassesEscapeEach(value);
    EachReadsBack(value, rest);
  }
}
