/** Joining, splitting and measuring strings, and the CRLF lines of a message. */
module Strings {

  const CRLF := "\r\n"

  /** `length` in the host language: characters outside the Basic Multilingual Plane count twice. */
  function Width(s: string): (n: nat)
    ensures n >= |s|
  {
    if s == "" then 0 else (if s[0] >= '\U{10000}' then 2 else 1) + Width(s[1..])
  }

  lemma {:induction false} WidthAppend(s: string, t: string)
    ensures Width(s + t) == Width(s) + Width(t)
  {
    if s == "" {
      assert s + t == t;
    } else {
      assert (s + t)[1..] == s[1..] + t;
      WidthAppend(s[1..], t);
    }
  }

  function Concat(parts: seq<string>): string {
    if parts == [] then "" else parts[0] + Concat(parts[1..])
  }

  lemma {:induction false} ConcatAppend(a: seq<string>, b: seq<string>)
    ensures Concat(a + b) == Concat(a) + Concat(b)
  {
    if a == [] {
      assert a + b == b;
    } else {
      assert (a + b)[1..] == a[1..] + b;
      ConcatAppend(a[1..], b);
    }
  }

  function Join(parts: seq<string>, separator: string): string {
    if parts == [] then ""
    else if |parts| == 1 then parts[0]
    else parts[0] + separator + Join(parts[1..], separator)
  }

  /** `split` at a single character. */
  lemma {:induction false} JoinSnoc(parts: seq<string>, last: string, separator: string)
    requires parts != []
    ensures Join(parts + [last], separator) == Join(parts, separator) + separator + last
  {
    var all := parts + [last];
    if |parts| == 1 {
      assert all[1..] == [last] && all[0] == parts[0];
    } else {
      JoinSnoc(parts[1..], last, separator);
      assert all[1..] == parts[1..] + [last];
    }
  }

  function Split(s: string, c: char): (r: seq<string>)
    ensures r != []
    ensures forall p <- r :: c !in p
  {
    if s == "" then [""]
    else
      var rest := Split(s[1..], c);
      if s[0] == c then [""] + rest else [[s[0]] + rest[0]] + rest[1..]
  }

  lemma {:induction false} SplitPiece(p: string, s: string, c: char)
    requires c !in p
    ensures Split(p + [c] + s, c) == [p] + Split(s, c)
  {
    if p == "" {
      assert p + [c] + s == [c] + s;
    } else {
      assert (p + [c] + s)[1..] == p[1..] + [c] + s;
      SplitPiece(p[1..], s, c);
      assert p == [p[0]] + p[1..];
      assert ([p[1..]] + Split(s, c))[1..] == Split(s, c);
    }
  }

  lemma {:induction false} SplitOne(p: string, c: char)
    requires c !in p
    ensures Split(p, c) == [p]
  {
    if p != "" {
      SplitOne(p[1..], c);
      assert p == [p[0]] + p[1..];
    }
  }

  lemma {:induction false} SplitJoined(parts: seq<string>, c: char)
    requires parts != [] && forall p <- parts :: c !in p
    ensures Split(Join(parts, [c]), c) == parts
  {
    if |parts| == 1 {
      SplitOne(parts[0], c);
    } else {
      SplitPiece(parts[0], Join(parts[1..], [c]), c);
      SplitJoined(parts[1..], c);
    }
  }

  /** Two strings in which `c` first follows a part without it: the parts agree. */
  lemma {:induction false} SplitsAtFirst(a: string, b: string, x: string, y: string, c: char)
    requires c !in a && c !in b
    requires a + [c] + x == b + [c] + y
    ensures a == b && x == y
  {
    SplitPiece(a, x, c);
    SplitPiece(b, y, c);
    var s := a + [c] + x;
    assert Split(s, c)[0] == a && Split(s, c)[0] == b;
    assert s[|a| + 1..] == x && s[|b| + 1..] == y;
  }

  /** What follows the last `c`. */
  function AfterLast(s: string, c: char): string {
    if s == "" || s[|s| - 1] == c then "" else AfterLast(s[..|s| - 1], c) + [s[|s| - 1]]
  }

  lemma {:induction false} AfterLastIs(a: string, c: char, x: string)
    requires c !in x
    ensures AfterLast(a + [c] + x, c) == x
  {
    if x == "" {
      assert a + [c] + x == a + [c];
    } else {
      assert x[|x| - 1] in x;
      assert (a + [c] + x)[..|a + [c] + x| - 1] == a + [c] + x[..|x| - 1];
      AfterLastIs(a, c, x[..|x| - 1]);
    }
  }

  lemma {:induction false} SplitsAtLast(a: string, b: string, x: string, y: string, c: char)
    requires c !in x && c !in y
    requires a + [c] + x == b + [c] + y
    ensures a == b && x == y
  {
    AfterLastIs(a, c, x);
    AfterLastIs(b, c, y);
    assert (a + [c] + x)[..|a|] == a && (b + [c] + y)[..|b|] == b;
  }

  // ---- Lines ----

  function Lines(s: string): (r: seq<string>)
    ensures r != []
  {
    if s == "" then [""]
    else if StartsWithBreak(s) then [""] + Lines(s[2..])
    else
      var rest := Lines(s[1..]);
      [[s[0]] + rest[0]] + rest[1..]
  }

  predicate StartsWithBreak(s: string) {
    |s| >= 2 && s[0] == '\r' && s[1] == '\n'
  }

  lemma LinesAfterBreak(s: string)
    requires StartsWithBreak(s)
    ensures Lines(s) == [""] + Lines(s[2..])
  {
  }

  lemma LinesAfterChar(s: string)
    requires s != "" && !StartsWithBreak(s)
    ensures Lines(s) == [[s[0]] + Lines(s[1..])[0]] + Lines(s[1..])[1..]
  {
  }

  lemma BreakFollows(s: string, t: string)
    ensures var whole := s + CRLF + t;
            if s == "" then StartsWithBreak(whole) && whole[2..] == t
            else whole[0] == s[0] && whole[1..] == s[1..] + CRLF + t
                 && (StartsWithBreak(s) ==> whole[2..] == s[2..] + CRLF + t)
                 && StartsWithBreak(whole) == StartsWithBreak(s)
  {
  }

  lemma FirstLineGrows(c: char, a: seq<string>, b: seq<string>)
    requires a != []
    ensures [[c] + (a + b)[0]] + (a + b)[1..] == [[c] + a[0]] + a[1..] + b
  {
  }

  /** Two CRLF sequences never overlap, so the break between two strings is always seen. */
  lemma {:induction false} LinesAppend(s: string, t: string)
    ensures Lines(s + CRLF + t) == Lines(s) + Lines(t)
  {
    assert Lines("") == [""];
    hide Lines;
    var whole := s + CRLF + t;
    BreakFollows(s, t);
    if s == "" {
      LinesAfterBreak(whole);
    } else if StartsWithBreak(s) {
      LinesAfterBreak(whole);
      LinesAfterBreak(s);
      LinesAppend(s[2..], t);
    } else {
      LinesAfterChar(whole);
      LinesAfterChar(s);
      LinesAppend(s[1..], t);
      FirstLineGrows(s[0], Lines(s[1..]), Lines(t));
    }
  }

  predicate OneLine(s: string) {
    '\r' !in s && '\n' !in s
  }

  lemma {:induction false} OneLineIsItself(s: string)
    requires OneLine(s)
    ensures Lines(s) == [s]
  {
    if s != "" {
      OneLineIsItself(s[1..]);
      assert s == [s[0]] + s[1..];
    }
  }

  /** A string without breaks in front only lengthens the first line. */
  lemma {:induction false} LinesPrefix(s: string, t: string)
    requires OneLine(s)
    ensures Lines(s + t) == [s + Lines(t)[0]] + Lines(t)[1..]
  {
    if s == "" {
      assert s + t == t;
      assert "" + Lines(t)[0] == Lines(t)[0];
    } else {
      assert (s + t)[1..] == s[1..] + t;
      LinesPrefix(s[1..], t);
      assert [s[0]] + (s[1..] + Lines(t)[0]) == s + Lines(t)[0];
    }
  }

  function AllLines(parts: seq<string>): seq<string> {
    if parts == [] then [] else Lines(parts[0]) + AllLines(parts[1..])
  }

  lemma {:induction false} AllLinesAppend(a: seq<string>, b: seq<string>)
    ensures AllLines(a + b) == AllLines(a) + AllLines(b)
  {
    if a == [] {
      assert a + b == b;
    } else {
      assert (a + b)[1..] == a[1..] + b;
      AllLinesAppend(a[1..], b);
    }
  }

  lemma {:induction false} LinesJoin(parts: seq<string>)
    requires parts != []
    ensures Lines(Join(parts, CRLF)) == AllLines(parts)
  {
    if |parts| == 1 {
      assert AllLines(parts) == Lines(parts[0]) + [];
    } else {
      LinesAppend(parts[0], Join(parts[1..], CRLF));
      LinesJoin(parts[1..]);
    }
  }

  lemma {:induction false} PlainLines(parts: seq<string>)
    requires forall p <- parts :: OneLine(p)
    ensures AllLines(parts) == parts
  {
    if parts != [] {
      OneLineIsItself(parts[0]);
      PlainLines(parts[1..]);
    }
  }

  /** Unfolding, section 2.2.3 of RFC 5322: the line breaks go, the white space after them stays. */
  function Unfolded(s: string): string {
    Concat(Lines(s))
  }

  lemma {:induction false} UnfoldedOneLine(s: string)
    requires OneLine(s)
    ensures Unfolded(s) == s
  {
    OneLineIsItself(s);
    assert Concat([s]) == s + Concat([]);
  }

  lemma {:induction false} UnfoldedPrefix(s: string, t: string)
    requires OneLine(s)
    ensures Unfolded(s + t) == s + Unfolded(t)
  {
    LinesPrefix(s, t);
  }
}
