/**
 * The string operations of the host language that the models share. A `char` here is a
 * Unicode scalar value, so a string never holds a lone surrogate. Case mapping is the
 * ASCII part of it.
 */
module Text {

  /** White space as `trim()` and `\s` understand it. */
  predicate IsSpace(c: char) {
    || '\U{0009}' <= c <= '\U{000D}' || c == ' ' || c == '\U{00A0}' || c == '\U{1680}'
    || '\U{2000}' <= c <= '\U{200A}' || c == '\U{2028}' || c == '\U{2029}'
    || c == '\U{202F}' || c == '\U{205F}' || c == '\U{3000}' || c == '\U{FEFF}'
  }

  function TrimStart(s: string): (r: string)
    ensures |r| <= |s|
    ensures r != "" ==> !IsSpace(r[0])
  {
    if s != "" && IsSpace(s[0]) then TrimStart(s[1..]) else s
  }

  function TrimEnd(s: string): (r: string)
    ensures |r| <= |s|
    ensures r != "" ==> !IsSpace(r[|r| - 1]) && s != "" && r[0] == s[0]
  {
    if s != "" && IsSpace(s[|s| - 1]) then TrimEnd(s[..|s| - 1]) else s
  }

  function Trim(s: string): (r: string)
    ensures r != "" ==> !IsSpace(r[0]) && !IsSpace(r[|r| - 1])
    ensures |r| <= |s|
  {
    TrimEnd(TrimStart(s))
  }

  /** Only white space goes from the front. */
  lemma {:induction false} TrimStartIs(s: string)
    ensures TrimStart(s) == s[|s| - |TrimStart(s)|..]
    ensures forall i :: 0 <= i < |s| - |TrimStart(s)| ==> IsSpace(s[i])
  {
    hide IsSpace;
    if s != "" && IsSpace(s[0]) {
      TrimStartIs(s[1..]);
    }
  }

  /** And from the back. */
  lemma {:induction false} TrimEndIs(s: string)
    ensures TrimEnd(s) == s[..|TrimEnd(s)|]
    ensures forall i :: |TrimEnd(s)| <= i < |s| ==> IsSpace(s[i])
  {
    hide IsSpace;
    if s != "" && IsSpace(s[|s| - 1]) {
      TrimEndIs(s[..|s| - 1]);
    }
  }

  lemma {:induction false} TrimIsPart(s: string)
    ensures forall c <- Trim(s) :: c in s
  {
    var t := TrimStart(s);
    TrimStartIs(s);
    TrimEndIs(t);
    hide TrimStart, TrimEnd, IsSpace;
    forall c <- Trim(s) ensures c in s {
      assert c in t;
    }
  }

  predicate IsAllSpace(s: string) {
    forall c <- s :: IsSpace(c)
  }

  lemma {:induction false} TrimStartDrops(blank: string, s: string)
    requires IsAllSpace(blank) && (s == "" || !IsSpace(s[0]))
    ensures TrimStart(blank + s) == s
  {
    hide IsSpace;
    if blank == "" {
      assert blank + s == s;
    } else {
      assert blank[0] in blank && (blank + s)[1..] == blank[1..] + s;
      TrimStartDrops(blank[1..], s);
    }
  }

  lemma {:induction false} TrimEndDrops(s: string, blank: string)
    requires IsAllSpace(blank) && (s == "" || !IsSpace(s[|s| - 1]))
    ensures TrimEnd(s + blank) == s
  {
    hide IsSpace;
    if blank == "" {
      assert s + blank == s;
    } else {
      assert blank[|blank| - 1] in blank && (s + blank)[..|s + blank| - 1] == s + blank[..|blank| - 1];
      TrimEndDrops(s, blank[..|blank| - 1]);
    }
  }

  /** What is left between outer white space is what `trim` gives. */
  lemma {:induction false} TrimBetween(before: string, s: string, after: string)
    requires IsAllSpace(before) && IsAllSpace(after)
    requires s != "" ==> !IsSpace(s[0]) && !IsSpace(s[|s| - 1])
    ensures Trim(before + s + after) == s
  {
    hide IsSpace, TrimStart, TrimEnd;
    if s == "" {
      assert before + s + after == before + after + "";
      TrimStartDrops(before + after, "");
      TrimEndDrops("", "");
      assert "" + "" == "";
    } else {
      assert before + s + after == before + (s + after);
      TrimStartDrops(before, s + after);
      TrimEndDrops(s, after);
    }
  }

  lemma {:induction false} TrimSplits(s: string) returns (before: string, after: string)
    ensures IsAllSpace(before) && IsAllSpace(after) && s == before + Trim(s) + after
  {
    var t := TrimStart(s);
    TrimStartIs(s);
    TrimEndIs(t);
    before, after := s[..|s| - |t|], t[|Trim(s)|..];
    hide IsSpace, TrimStart, TrimEnd;
  }

  /** More white space around a string changes nothing. */
  lemma {:induction false} TrimIgnoresOuterSpace(before: string, s: string, after: string)
    requires IsAllSpace(before) && IsAllSpace(after)
    ensures Trim(before + s + after) == Trim(s)
  {
    var x, y := TrimSplits(s);
    hide Trim, IsSpace;
    TrimBetween(before + x, Trim(s), y + after);
    assert before + s + after == before + x + Trim(s) + (y + after);
  }

  function LowerChar(c: char): char {
    if 'A' <= c <= 'Z' then (c as int + 32) as char else c
  }

  function UpperChar(c: char): char {
    if 'a' <= c <= 'z' then (c as int - 32) as char else c
  }

  function Lower(s: string): (r: string)
    ensures |r| == |s| && forall i :: 0 <= i < |s| ==> r[i] == LowerChar(s[i])
  {
    seq(|s|, i requires 0 <= i < |s| => LowerChar(s[i]))
  }

  function Upper(s: string): (r: string)
    ensures |r| == |s| && forall i :: 0 <= i < |s| ==> r[i] == UpperChar(s[i])
  {
    seq(|s|, i requires 0 <= i < |s| => UpperChar(s[i]))
  }

  lemma {:induction false} TrimIsIdempotent(s: string)
    ensures Trim(Trim(s)) == Trim(s)
  {
    var r := Trim(s);
    hide Trim, IsSpace;
    TrimOfTrimmed(r);
  }

  lemma {:induction false} TrimOfTrimmed(r: string)
    requires r != "" ==> !IsSpace(r[0]) && !IsSpace(r[|r| - 1])
    ensures Trim(r) == r
  {
    hide IsSpace;
    assert TrimStart(r) == r;
  }

  lemma {:induction false} LowerOfBlank(s: string)
    ensures IsAllSpace(Lower(s)) <==> IsAllSpace(s)
  {
    assert forall c :: IsSpace(LowerChar(c)) <==> IsSpace(c);
    hide IsSpace, LowerChar;
    assert forall i :: 0 <= i < |s| ==> s[i] in s && Lower(s)[i] in Lower(s);
  }

  lemma {:induction false} LowerAppend(a: string, b: string)
    ensures Lower(a + b) == Lower(a) + Lower(b)
  {
    hide LowerChar;
  }

  /** Trimming and lower-casing can be done in either order. */
  lemma {:induction false} LowerTrim(s: string)
    ensures Lower(Trim(s)) == Trim(Lower(s))
  {
    var before, after := TrimSplits(s);
    var t := Trim(s);
    LowerAppend(before + t, after);
    LowerAppend(before, t);
    LowerOfBlank(before);
    LowerOfBlank(after);
    assert t != "" ==> !IsSpace(Lower(t)[0]) && !IsSpace(Lower(t)[|t| - 1]);
    hide Trim, IsSpace, Lower;
    TrimBetween(Lower(before), Lower(t), Lower(after));
  }
}
