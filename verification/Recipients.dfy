/** Splitting what a user typed into recipients, and accepting or refusing each. */
module Recipients {
  import opened Basics
  import opened Strings
  import opened Text

  // ---- The scanner ----

  /** Where the scanner is: inside quotes, and how deep inside angle brackets. */
  datatype Scan = Scan(quoted: bool, depth: nat)

  const START := Scan(false, 0)

  function After(s: Scan, c: char): Scan {
    if c == '"' then s.(quoted := !s.quoted)
    else if !s.quoted && c == '<' then s.(depth := s.depth + 1)
    else if !s.quoted && c == '>' then s.(depth := if s.depth > 0 then s.depth - 1 else 0)
    else s
  }

  predicate IsSeparator(c: char) {
    c == ',' || c == ';'
  }

  /** A separator that separates. */
  predicate Cuts(s: Scan, c: char) {
    IsSeparator(c) && After(s, c) == START
  }

  function AfterAll(s: Scan, text: string): Scan
    decreases |text|
  {
    if text == "" then s else After(AfterAll(s, text[..|text| - 1]), text[|text| - 1])
  }

  function GrowLast(pieces: seq<string>, text: string): (r: seq<string>)
    requires pieces != []
    ensures |r| == |pieces|
  {
    pieces[..|pieces| - 1] + [pieces[|pieces| - 1] + text]
  }

  /** The pieces of `text`: cut wherever a separator stands outside quotes and brackets. */
  function Pieces(text: string): (r: seq<string>)
    ensures r != []
    decreases |text|
  {
    if text == "" then [""]
    else
      var before, c := text[..|text| - 1], text[|text| - 1];
      var ps := Pieces(before);
      if Cuts(AfterAll(START, before), c) then ps + [""]
      else GrowLast(ps, [c])
  }

  method SplitAddresses(input: string) returns (parts: seq<string>)
    ensures parts == Pieces(input)
  {
    parts := [];
    var current, quoted := "", false;
    var depth: nat := 0;
    for i := 0 to |input|
      invariant AfterAll(START, input[..i]) == Scan(quoted, depth)
      invariant Pieces(input[..i]) == parts + [current]
    {
      var c := input[i];
      assert input[..i + 1][..i] == input[..i];
      if c == '"' {
        quoted := !quoted;
      } else if !quoted && c == '<' {
        depth := depth + 1;
      } else if !quoted && c == '>' {
        depth := if depth - 1 > 0 then depth - 1 else 0;
      }
      if (c == ',' || c == ';') && depth == 0 && !quoted {
        parts, current := parts + [current], "";
      } else {
        current := current + [c];
      }
    }
    assert input[..|input|] == input;
    parts := parts + [current];
  }

  // ---- What splitting loses ----

  /** The separators that were cut at, in order. */
  function Separators(text: string): string
    decreases |text|
  {
    if text == "" then ""
    else
      var before, c := text[..|text| - 1], text[|text| - 1];
      if Cuts(AfterAll(START, before), c) then Separators(before) + [c] else Separators(before)
  }

  /** Pieces with separators put back between them. */
  function Interleaved(pieces: seq<string>, separators: string): string
    requires |pieces| == |separators| + 1
    decreases |pieces|
  {
    if separators == "" then pieces[0]
    else
      Interleaved(pieces[..|pieces| - 1], separators[..|separators| - 1])
      + [separators[|separators| - 1]] + pieces[|pieces| - 1]
  }

  lemma {:induction false} LastPieceGrows(pieces: seq<string>, separators: string, c: char)
    requires |pieces| == |separators| + 1
    ensures Interleaved(GrowLast(pieces, [c]), separators) == Interleaved(pieces, separators) + [c]
  {
    var grown := GrowLast(pieces, [c]);
    assert grown[..|pieces| - 1] == pieces[..|pieces| - 1];
  }

  lemma {:induction false} NewPieceStarts(pieces: seq<string>, separators: string, c: char)
    requires |pieces| == |separators| + 1
    ensures Interleaved(pieces + [""], separators + [c]) == Interleaved(pieces, separators) + [c]
  {
    assert (pieces + [""])[..|pieces|] == pieces && (separators + [c])[..|separators|] == separators;
  }

  /** Nothing else is lost: the pieces and the separators cut at give the input back. */
  lemma {:induction false} PiecesAndSeparatorsRebuild(text: string)
    ensures |Pieces(text)| == |Separators(text)| + 1
    ensures Interleaved(Pieces(text), Separators(text)) == text
    decreases |text|
  {
    hide Interleaved, Cuts, GrowLast;
    if text == "" {
      OnlyPiece("");
    } else {
      var before, c := text[..|text| - 1], text[|text| - 1];
      PiecesAndSeparatorsRebuild(before);
      assert text == before + [c];
      if Cuts(AfterAll(START, before), c) {
        NewPieceStarts(Pieces(before), Separators(before), c);
      } else {
        LastPieceGrows(Pieces(before), Separators(before), c);
      }
    }
  }

  lemma {:induction false} OnlyPiece(piece: string)
    ensures Interleaved([piece], "") == piece
  {
  }

  // ---- Splitting undoes joining ----

  /** Quotes and brackets close, and every separator lies inside them. */
  predicate IsClosed(piece: string) {
    && AfterAll(START, piece) == START
    && forall i :: 0 <= i < |piece| ==> !Cuts(AfterAll(START, piece[..i]), piece[i])
  }

  lemma {:induction false} AfterAllAppend(s: Scan, a: string, b: string)
    ensures AfterAll(s, a + b) == AfterAll(AfterAll(s, a), b)
    decreases |b|
  {
    if b == "" {
      assert a + b == a;
    } else {
      assert (a + b)[..|a + b| - 1] == a + b[..|b| - 1];
      AfterAllAppend(s, a, b[..|b| - 1]);
    }
  }

  lemma {:induction false} GrowTwice(pieces: seq<string>, a: string, b: string)
    requires pieces != []
    ensures GrowLast(GrowLast(pieces, a), b) == GrowLast(pieces, a + b)
  {
    var last := pieces[|pieces| - 1];
    assert last + a + b == last + (a + b);
  }

  lemma {:induction false} GrowByNothing(pieces: seq<string>)
    requires pieces != []
    ensures GrowLast(pieces, "") == pieces
  {
    var last := pieces[|pieces| - 1];
    assert last + "" == last;
  }

  lemma {:induction false} UncutGrows(text: string, c: char)
    requires !Cuts(AfterAll(START, text), c)
    ensures Pieces(text + [c]) == GrowLast(Pieces(text), [c])
  {
    assert (text + [c])[..|text|] == text;
  }

  /** A closed piece after a point where the scanner is at its start only lengthens the last piece. */
  lemma {:induction false} ClosedPieceStaysWhole(text: string, piece: string, n: nat)
    requires AfterAll(START, text) == START && n <= |piece|
    requires forall i :: 0 <= i < |piece| ==> !Cuts(AfterAll(START, piece[..i]), piece[i])
    ensures Pieces(text + piece[..n]) == GrowLast(Pieces(text), piece[..n])
    decreases n
  {
    hide Pieces, Cuts, GrowLast, AfterAll;
    if n == 0 {
      assert piece[..0] == "" && text + "" == text;
      GrowByNothing(Pieces(text));
    } else {
      var before, c := piece[..n - 1], piece[n - 1];
      ClosedPieceStaysWhole(text, piece, n - 1);
      AfterAllAppend(START, text, before);
      UncutGrows(text + before, c);
      GrowTwice(Pieces(text), before, [c]);
      assert piece[..n] == before + [c] && text + before + [c] == text + piece[..n];
    }
  }

  lemma {:induction false} OnePiece(piece: string)
    requires IsClosed(piece)
    ensures Pieces(piece) == [piece]
  {
    ClosedPieceStaysWhole("", piece, |piece|);
    assert piece[..|piece|] == piece && "" + piece == piece;
    assert Pieces("") == [""];
  }

  lemma {:induction false} JoinedPiece(before: string, c: char, piece: string)
    requires AfterAll(START, before) == START && IsSeparator(c) && IsClosed(piece)
    ensures Pieces(before + [c] + piece) == Pieces(before) + [piece]
    ensures AfterAll(START, before + [c] + piece) == START
  {
    var cut := before + [c];
    assert cut[..|before|] == before;
    ClosedPieceStaysWhole(cut, piece, |piece|);
    assert piece[..|piece|] == piece && "" + piece == piece;
    AfterAllAppend(START, cut, piece);
  }

  /** Whatever separators join them, closed pieces come back. */
  lemma {:induction false} SplitUndoesJoin(pieces: seq<string>, separators: string)
    requires |pieces| == |separators| + 1
    requires forall p <- pieces :: IsClosed(p)
    requires forall i :: 0 <= i < |separators| ==> IsSeparator(separators[i])
    ensures Pieces(Interleaved(pieces, separators)) == pieces
    ensures AfterAll(START, Interleaved(pieces, separators)) == START
    decreases |pieces|
  {
    hide Pieces, AfterAll, IsSeparator;
    var n := |pieces| - 1;
    var last := pieces[n];
    assert IsClosed(last);
    if separators == "" {
      OnePiece(last);
      assert pieces == [last];
    } else {
      SplitUndoesJoin(pieces[..n], separators[..n - 1]);
      JoinedPiece(Interleaved(pieces[..n], separators[..n - 1]), separators[n - 1], last);
      assert pieces == pieces[..n] + [last];
    }
  }

  // ---- What is closed ----

  predicate IsMark(c: char) {
    c == '"' || c == '<' || c == '>'
  }

  lemma {:induction false} StaysInside(s: Scan, text: string)
    requires forall c <- text :: After(s, c) == s
    ensures AfterAll(s, text) == s
    decreases |text|
  {
    if text != "" {
      assert text[|text| - 1] in text;
      StaysInside(s, text[..|text| - 1]);
    }
  }

  lemma {:induction false} InsideAt(open: char, text: string, close: char, n: nat)
    requires n <= |text| && forall c <- text :: After(After(START, open), c) == After(START, open)
    ensures AfterAll(START, ([open] + text + [close])[..n + 1]) == After(START, open)
  {
    assert ([open] + text + [close])[..n + 1] == [open] + text[..n];
    AfterAllAppend(START, [open], text[..n]);
    OneAfter(START, open);
    StaysInside(After(START, open), text[..n]);
  }

  predicate Encloses(open: char, text: string, close: char) {
    || (open == '"' && close == '"' && '"' !in text)
    || (open == '<' && close == '>' && forall c <- text :: !IsMark(c))
  }

  lemma {:induction false} NoCutInside(open: char, text: string, close: char, i: nat)
    requires Encloses(open, text, close) && i < |text| + 2
    ensures var whole := [open] + text + [close]; !Cuts(AfterAll(START, whole[..i]), whole[i])
  {
    var whole := [open] + text + [close];
    if i == 0 {
      assert whole[0] == open;
    } else {
      InsideAt(open, text, close, i - 1);
      hide AfterAll;
      assert 1 <= i <= |text| ==> whole[i] == text[i - 1] && text[i - 1] in text;
    }
  }

  /** A quoted or bracketed text is closed whatever separators it has inside. */
  lemma {:induction false} EnclosedIsClosed(open: char, text: string, close: char)
    requires Encloses(open, text, close)
    ensures IsClosed([open] + text + [close])
  {
    var whole := [open] + text + [close];
    InsideAt(open, text, close, |text|);
    assert whole[..|text| + 1] + [close] == whole;
    AfterAllAppend(START, whole[..|text| + 1], [close]);
    OneAfter(After(START, open), close);
    hide AfterAll, Cuts;
    forall i | 0 <= i < |whole| ensures !Cuts(AfterAll(START, whole[..i]), whole[i]) {
      NoCutInside(open, text, close, i);
    }
  }

  lemma OneAfter(s: Scan, c: char)
    ensures AfterAll(s, [c]) == After(s, c)
  {
    assert [c][..0] == "";
  }

  /** So is a text without quotes, brackets and separators. */
  lemma {:induction false} PlainIsClosed(text: string)
    requires forall c <- text :: !IsMark(c) && !IsSeparator(c)
    ensures IsClosed(text)
  {
    StaysInside(START, text);
    forall i | 0 <= i < |text| ensures !Cuts(AfterAll(START, text[..i]), text[i]) {
      assert text[i] in text;
    }
  }

  lemma {:induction false} ClosedAppend(a: string, b: string)
    requires IsClosed(a) && IsClosed(b)
    ensures IsClosed(a + b)
  {
    var whole := a + b;
    AfterAllAppend(START, a, b);
    hide Cuts, AfterAll;
    forall i | 0 <= i < |whole| ensures !Cuts(AfterAll(START, whole[..i]), whole[i]) {
      if i < |a| {
        assert whole[..i] == a[..i];
      } else {
        assert whole[..i] == a + b[..i - |a|];
        AfterAllAppend(START, a, b[..i - |a|]);
      }
    }
  }

  // ---- One recipient ----

  datatype Recipient = Recipient(name: string, address: string)

  datatype Refusal = NoAddress | ControlCharacter | TooLong | NotAnAddress | TooMany

  const MAX_ADDRESS_CHARS := 254
  const MAX_NAME_CHARS := 80

  predicate IsControl(c: char) {
    c <= '\U{001F}' || c == '\U{007F}' || c == '\U{2028}' || c == '\U{2029}'
  }

  predicate HasControlCharacter(s: string) {
    exists c <- s :: IsControl(c)
  }

  predicate IsAlphanumeric(c: char) {
    'A' <= c <= 'Z' || 'a' <= c <= 'z' || '0' <= c <= '9'
  }

  predicate IsAtomChar(c: char) {
    IsAlphanumeric(c) || c in "!#$%&'*+/=?^_`{|}~-"
  }

  predicate IsAtom(s: string) {
    s != "" && forall i :: 0 <= i < |s| ==> IsAtomChar(s[i])
  }

  predicate IsLabel(s: string) {
    && s != "" && IsAlphanumeric(s[0]) && IsAlphanumeric(s[|s| - 1])
    && forall i :: 0 <= i < |s| ==> IsAlphanumeric(s[i]) || s[i] == '-'
  }

  predicate IsTopLevel(s: string) {
    |s| >= 2 && forall i :: 0 <= i < |s| ==> 'A' <= s[i] <= 'Z' || 'a' <= s[i] <= 'z'
  }

  predicate IsLocalPart(s: string) {
    forall atom <- Split(s, '.') :: IsAtom(atom)
  }

  predicate IsDomain(s: string) {
    var labels := Split(s, '.');
    && |labels| >= 2
    && (forall i :: 0 <= i < |labels| - 1 ==> IsLabel(labels[i]))
    && IsTopLevel(labels[|labels| - 1])
  }

  /** The index of the last `c`, or -1. */
  function LastIndexOf(s: string, c: char): (i: int)
    ensures -1 <= i < |s|
    ensures i >= 0 ==> s[i] == c
    ensures forall j :: i < j < |s| ==> s[j] != c
  {
    if s == "" then -1 else if s[|s| - 1] == c then |s| - 1 else LastIndexOf(s[..|s| - 1], c)
  }

  /** The `ADDRESS` pattern. */
  predicate IsAddress(s: string) {
    var at := LastIndexOf(s, '@');
    at >= 0 && IsLocalPart(s[..at]) && IsDomain(s[at + 1..])
  }

  datatype Named = Named(name: string, address: string)

  /** The `NAMED` pattern: a name of up to 80 characters, then an address in the last brackets. */
  function MatchNamed(raw: string): Option<Named> {
    var open := LastIndexOf(raw, '<');
    if open <= 0 || raw[|raw| - 1] != '>' then None
    else
      var name, address := TrimEnd(raw[..open]), raw[open + 1..|raw| - 1];
      if name == "" || Width(name) > MAX_NAME_CHARS || address == "" || '>' in address then None
      else Some(Named(name, address))
  }

  /** `replace(/^"|"$/g, '')`. */
  function Unquoted(s: string): string {
    var t := if s != "" && s[0] == '"' then s[1..] else s;
    if t != "" && t[|t| - 1] == '"' then t[..|t| - 1] else t
  }

  function LowercaseDomain(address: string): string
    requires LastIndexOf(address, '@') >= 0
  {
    var at := LastIndexOf(address, '@');
    address[..at] + "@" + Lower(address[at + 1..])
  }

  function ParseRecipient(input: string): Result<Recipient, Refusal> {
    var raw := Trim(input);
    if raw == "" then Err(NoAddress)
    else if HasControlCharacter(raw) then Err(ControlCharacter)
    else
      var named := MatchNamed(raw);
      var address := Trim(if named.Some? then named.value.address else raw);
      var name := if named.Some? then Unquoted(Trim(named.value.name)) else "";
      if Width(address) > MAX_ADDRESS_CHARS then Err(TooLong)
      else if !IsAddress(address) then Err(NotAnAddress)
      else Ok(Recipient(name, LowercaseDomain(address)))
  }
}
