/**
 * Header values: the encoded words of RFC 2047 and the folding of `References`, with what a
 * recipient reads of the latter. What one reads of the former is in `EncodedWords`.
 */
module Headers {
  import opened Basics
  import opened Encoding
  import opened Strings
  import opened Text

  // ---- Encoded words ----

  predicate IsBreak(c: char) {
    c == '\r' || c == '\n'
  }

  /** `replace(/[\r\n]+/g, ' ')`. */
  function CollapseBreaks(s: string): (r: string)
    ensures OneLine(r)
  {
    if s == "" then ""
    else if IsBreak(s[0]) && |s| > 1 && IsBreak(s[1]) then CollapseBreaks(s[1..])
    else [if IsBreak(s[0]) then ' ' else s[0]] + CollapseBreaks(s[1..])
  }

  function Clean(value: string): string {
    Trim(CollapseBreaks(value))
  }

  lemma {:induction false} CleanIsOneLine(value: string)
    ensures OneLine(Clean(value))
  {
    hide Trim, CollapseBreaks;
    TrimIsPart(CollapseBreaks(value));
  }

  predicate IsAscii(s: string) {
    forall c <- s :: c as int < 0x80
  }

  const WORD_LIMIT := 45
  const WORD_START := "=?UTF-8?B?"
  const WORD_END := "?="

  function Encoded(part: string): string {
    Base64(Utf8(part))
  }

  function Word(part: string): string {
    WORD_START + Encoded(part) + WORD_END
  }

  /** What the loop adds to `chunks` when it holds `current` and has `rest` to go. */
  function Pieces(current: string, rest: string): seq<string>
    decreases |rest|
  {
    if rest == "" then if current == "" then [] else [current]
    else if |Encoded(current + [rest[0]])| > WORD_LIMIT then [current] + Pieces([rest[0]], rest[1..])
    else Pieces(current + [rest[0]], rest[1..])
  }

  function Words(pieces: seq<string>): (r: seq<string>)
    ensures |r| == |pieces| && forall i :: 0 <= i < |r| ==> r[i] == Word(pieces[i])
  {
    seq(|pieces|, i requires 0 <= i < |pieces| => Word(pieces[i]))
  }

  function EncodeHeaderValue(value: string): string {
    var cleaned := Clean(value);
    if IsAscii(cleaned) then cleaned else Join(Words(Pieces("", cleaned)), CRLF + " ")
  }

  /** The loop of `encodeHeaderValue`. */
  method EncodeHeaderValueByChunks(value: string) returns (encoded: string)
    ensures encoded == EncodeHeaderValue(value)
  {
    hide Encoded, Words, Join, Clean, IsAscii;
    var cleaned := Clean(value);
    if IsAscii(cleaned) {
      return cleaned;
    }
    var chunks: seq<string>, current := [], "";
    for i := 0 to |cleaned|
      invariant Pieces("", cleaned) == chunks + Pieces(current, cleaned[i..])
    {
      var c := cleaned[i];
      assert cleaned[i..][0] == c && cleaned[i..][1..] == cleaned[i + 1..];
      var candidate := current + [c];
      if |Encoded(candidate)| > WORD_LIMIT {
        chunks, current := chunks + [current], [c];
      } else {
        current := candidate;
      }
    }
    assert cleaned[|cleaned|..] == "";
    if current != "" {
      chunks := chunks + [current];
    }
    assert chunks == Pieces("", cleaned);
    encoded := Join(Words(chunks), CRLF + " ");
  }

  /** A character takes at most four bytes, and a chunk of 33 still fits. */
  lemma {:induction false} OneCharacterFits(c: char)
    ensures |Encoded([c])| <= 8
  {
    assert Utf8([c]) == Utf8Char(c) + Utf8([c][1..]);
  }

  predicate Fits(piece: string) {
    piece != "" && |Encoded(piece)| <= WORD_LIMIT
  }

  /** The chunks are the value in order, cut between characters. */
  lemma {:induction false} PiecesSplitTheValue(current: string, rest: string)
    ensures Concat(Pieces(current, rest)) == current + rest
    decreases |rest|
  {
    hide Encoded;
    if rest != "" {
      var candidate := current + [rest[0]];
      assert rest == [rest[0]] + rest[1..];
      if |Encoded(candidate)| > WORD_LIMIT {
        PiecesSplitTheValue([rest[0]], rest[1..]);
      } else {
        PiecesSplitTheValue(candidate, rest[1..]);
      }
    }
  }

  lemma {:induction false} PiecesFit(current: string, rest: string)
    requires |Encoded(current)| <= WORD_LIMIT
    ensures forall p <- Pieces(current, rest) :: Fits(p)
    decreases |rest|
  {
    hide Encoded;
    if rest != "" {
      OneCharacterFits(rest[0]);
      var candidate := current + [rest[0]];
      assert current == "" ==> candidate == [rest[0]];
      if |Encoded(candidate)| > WORD_LIMIT {
        PiecesFit([rest[0]], rest[1..]);
      } else {
        PiecesFit(candidate, rest[1..]);
      }
    }
  }

  /** No chunk is closed while the next character would still fit. */
  predicate Greedy(pieces: seq<string>) {
    forall i, j :: 0 <= i && j == i + 1 < |pieces| ==> NoRoom(pieces[i], pieces[j])
  }

  predicate NoRoom(piece: string, next: string) {
    next != "" && |Encoded(piece + next[..1])| > 45
  }

  lemma {:induction false} PiecesAreGreedy(current: string, rest: string)
    requires current != "" || rest != ""
    ensures var ps := Pieces(current, rest); ps != [] && current <= ps[0] && Greedy(ps)
    decreases |rest|
  {
    hide Encoded;
    if rest != "" {
      var candidate := current + [rest[0]];
      if |Encoded(candidate)| > WORD_LIMIT {
        PiecesAreGreedy([rest[0]], rest[1..]);
        var ps := Pieces([rest[0]], rest[1..]);
        assert ps[0][..1] == [rest[0]] && NoRoom(current, ps[0]);
      } else {
        PiecesAreGreedy(candidate, rest[1..]);
      }
    }
  }

  lemma {:induction false} WordIsShort(p: string)
    requires Fits(p)
    ensures |Word(p)| <= 56
  {
    assert |Encoded(p)| % 4 == 0;
    hide Encoded;
    assert |WORD_START| == 10 && |WORD_END| == 2;
  }

  /** Every encoded word is within the 75 characters of section 2 of RFC 2047. */
  lemma {:induction false} WordsAreShort(value: string)
    ensures forall p <- Pieces("", Clean(value)) :: |Word(p)| <= 56
  {
    hide Pieces, Clean;
    PiecesFit("", Clean(value));
    forall p <- Pieces("", Clean(value)) ensures |Word(p)| <= 56 {
      assert Fits(p);
      WordIsShort(p);
    }
  }

  // ---- Reading a word ----

  /** The text of an encoded word as it is written here; anything else is not one. */
  function ReadWord(token: string): (r: Option<string>)
    ensures r.Some? ==> |r.value| < |token|
  {
    if |token| < |WORD_START| + |WORD_END| || token[..|WORD_START|] != WORD_START
       || token[|token| - |WORD_END|..] != WORD_END then None
    else
      match FromBase64(token[|WORD_START|..|token| - |WORD_END|])
      case None => None
      case Some(bytes) => FromUtf8(bytes)
  }

  lemma {:induction false} WordReads(part: string)
    ensures ReadWord(Word(part)) == Some(part)
  {
    TextRoundTrip(part);
    var w := Word(part);
    assert w[|WORD_START|..|w| - |WORD_END|] == Encoded(part);
    assert w[|w| - |WORD_END|..] == WORD_END;
    assert w[..|WORD_START|] == WORD_START;
  }

  /** Printable ASCII without spaces. */
  predicate IsToken(s: string) {
    s != "" && forall c <- s :: '!' <= c <= '~'
  }

  lemma {:induction false} CodeIsOneToken(part: string)
    requires part != ""
    ensures IsToken(Encoded(part))
  {
    Base64Alphabet(Utf8(part));
    forall c <- Encoded(part) ensures '!' <= c <= '~' {
      assert IsBase64Char(c);
    }
  }

  lemma {:induction false} TokenAppend(s: string, t: string)
    requires IsToken(s) && IsToken(t)
    ensures IsToken(s + t)
  {
  }

  lemma {:induction false} WordIsOneToken(part: string)
    requires part != ""
    ensures IsToken(Word(part))
  {
    CodeIsOneToken(part);
    hide Encoded;
    TokenAppend(WORD_START, Encoded(part));
    TokenAppend(WORD_START + Encoded(part), WORD_END);
  }

  /** Folded between words, a list unfolds to the words with single spaces between them. */
  lemma {:induction false} FoldedWordsUnfold(words: seq<string>)
    requires words != [] && forall w <- words :: OneLine(w)
    ensures Unfolded(Join(words, CRLF + " ")) == Join(words, " ")
  {
    if |words| == 1 {
      UnfoldedOneLine(words[0]);
    } else {
      var rest := Join(words[1..], CRLF + " ");
      assert words[0] + (CRLF + " ") + rest == words[0] + CRLF + (" " + rest);
      LinesAppend(words[0], " " + rest);
      ConcatAppend(Lines(words[0]), Lines(" " + rest));
      UnfoldedOneLine(words[0]);
      UnfoldedPrefix(" ", rest);
      FoldedWordsUnfold(words[1..]);
    }
  }

  lemma {:induction false} NothingEncoded()
    ensures Encoded("") == ""
  {
  }

  lemma {:induction false} NothingToCollapse(s: string)
    requires OneLine(s)
    ensures CollapseBreaks(s) == s
  {
    if s != "" {
      NothingToCollapse(s[1..]);
      assert s == [s[0]] + s[1..];
    }
  }

  lemma {:induction false} TokenIsClean(t: string)
    requires IsToken(t)
    ensures Clean(t) == t
  {
    NothingToCollapse(t);
    assert t[0] in t && t[|t| - 1] in t;
  }

  lemma {:induction false} TokenIsSentAsItIs(t: string)
    requires IsToken(t)
    ensures Clean(t) == t && IsAscii(t) && EncodeHeaderValue(t) == t
  {
    hide Clean;
    TokenIsClean(t);
  }

  // ---- Folding ----

  const LINE_LIMIT := 78

  predicate EndsWithSpace(s: string) {
    s != "" && s[|s| - 1] == ' '
  }

  /** One part taken by the loop that does not start a new line. */
  function Extended(line: string, part: string): string {
    if Trim(line) == "" then part else line + (if EndsWithSpace(line) then "" else " ") + part
  }

  predicate StartsNewLine(prefix: string, line: string, part: string) {
    Width(line) + Width(part) + 1 > LINE_LIMIT && Trim(line) != Trim(prefix)
  }

  /** The lines still to come when the loop holds `line` and has `parts` to go. */
  function FoldLines(prefix: string, line: string, parts: seq<string>): (r: seq<string>)
    ensures r != []
    decreases |parts|
  {
    if parts == [] then [line]
    else if StartsNewLine(prefix, line, parts[0]) then [line] + FoldLines(prefix, " " + parts[0], parts[1..])
    else FoldLines(prefix, Extended(line, parts[0]), parts[1..])
  }

  function Folded(name: string, value: string): string {
    var prefix := name + ": ";
    if Width(prefix) + Width(value) <= LINE_LIMIT then prefix + value
    else Join(FoldLines(prefix, prefix, Split(value, ' ')), CRLF)
  }

  method FoldHeader(name: string, value: string) returns (header: string)
    ensures header == Folded(name, value)
  {
    hide Join, Split, Width, Trim;
    var prefix := name + ": ";
    if Width(prefix) + Width(value) <= LINE_LIMIT {
      return prefix + value;
    }
    var parts := Split(value, ' ');
    var lines: seq<string>, line := [], prefix;
    for i := 0 to |parts|
      invariant FoldLines(prefix, prefix, parts) == lines + FoldLines(prefix, line, parts[i..])
    {
      var part := parts[i];
      assert parts[i..][0] == part && parts[i..][1..] == parts[i + 1..];
      if Width(line) + Width(part) + 1 > LINE_LIMIT && Trim(line) != Trim(prefix) {
        lines, line := lines + [line], " " + part;
      } else {
        line := if Trim(line) == "" then part else line + (if EndsWithSpace(line) then "" else " ") + part;
      }
    }
    assert parts[|parts|..] == [];
    header := Join(lines + [line], CRLF);
  }

  /** A message id as the threading code produces them, or a header name: no white space, not empty. */
  predicate IsId(s: string) {
    s != "" && forall c <- s :: !IsSpace(c)
  }

  lemma {:induction false} TrimOfLine(lead: string, body: string)
    requires lead == "" || lead == " "
    requires body != "" && !IsSpace(body[0]) && !IsSpace(body[|body| - 1])
    ensures Trim(lead + body) == body
  {
    TrimOfTrimmed(body);
    if lead == " " {
      assert (lead + body)[1..] == body && IsSpace(' ');
      hide IsSpace, TrimEnd;
    } else {
      assert lead + body == body;
      hide IsSpace, TrimStart, TrimEnd;
    }
  }

  lemma {:induction false} TrimOfPrefix(name: string)
    requires IsId(name)
    ensures Trim(name + ": ") == name + ":"
  {
    var p := name + ": ";
    assert p[..|p| - 1] == name + ":" && p[0] == name[0];
    assert name[0] in name;
    assert TrimStart(p) == p;
    assert TrimEnd(p) == TrimEnd(name + ":");
  }

  /** What a list of ids reads as when each is set off by one space. */
  function Spaced(ids: seq<string>): string {
    if ids == [] then "" else " " + ids[0] + Spaced(ids[1..])
  }

  lemma {:induction false} JoinSpaced(ids: seq<string>)
    requires ids != []
    ensures Join(ids, " ") == ids[0] + Spaced(ids[1..])
  {
    if |ids| > 1 {
      JoinSpaced(ids[1..]);
    }
  }

  /** `line` holds at least one id already: it ends in one, and starts with the prefix or a space. */
  predicate Holds(line: string) {
    line != "" && !IsSpace(line[|line| - 1])
  }

  lemma {:induction false} HeldLineIsNotBlank(line: string)
    requires Holds(line)
    ensures Trim(line) != ""
  {
    var t := TrimStart(line);
    TrimStartIs(line);
    assert t[|t| - 1] == line[|line| - 1];
    assert TrimEnd(t) == t;
  }

  lemma {:induction false} ExtendedHolds(line: string, part: string)
    requires Holds(line) && IsId(part)
    ensures Extended(line, part) == line + " " + part && Holds(Extended(line, part))
  {
    HeldLineIsNotBlank(line);
  }

  predicate IsContinuation(line: string) {
    |line| >= 2 && line[0] == ' ' && OneLine(line)
  }

  lemma {:induction false} IdIsOneLine(id: string)
    requires IsId(id)
    ensures OneLine(id) && ' ' !in id
  {
    assert IsSpace('\r') && IsSpace('\n') && IsSpace(' ');
  }

  /** The lines put together are the line held so far and the ids, one space before each. */
  lemma {:induction false} NewLineJoins(line: string, ids: seq<string>, rest: seq<string>)
    requires ids != [] && IsId(ids[0]) && rest != []
    requires Concat(rest) == " " + ids[0] + Spaced(ids[1..])
    requires (rest[0] == " " + ids[0] || " " + ids[0] + " " <= rest[0]) && OneLine(rest[0])
    requires forall l <- rest[1..] :: IsContinuation(l)
    ensures Concat([line] + rest) == line + Spaced(ids)
    ensures forall l <- ([line] + rest)[1..] :: IsContinuation(l)
  {
    hide IsSpace;
    assert ([line] + rest)[1..] == rest && rest == [rest[0]] + rest[1..];
  }

  lemma {:induction false} FoldLinesJoin(prefix: string, line: string, ids: seq<string>)
    requires Holds(line) && OneLine(line)
    requires forall id <- ids :: IsId(id)
    ensures var ls := FoldLines(prefix, line, ids);
            && Concat(ls) == line + Spaced(ids)
            && (ls[0] == line || line + " " <= ls[0]) && OneLine(ls[0])
            && (forall l <- ls[1..] :: IsContinuation(l))
    decreases |ids|
  {
    hide Trim, Width, IsSpace, StartsNewLine, Extended;
    if ids == [] {
      assert Concat([line]) == line + Concat([]);
    } else {
      IdIsOneLine(ids[0]);
      assert IsId(ids[0]);
      if StartsNewLine(prefix, line, ids[0]) {
        FoldLinesJoin(prefix, " " + ids[0], ids[1..]);
        hide Concat, Spaced, OneLine;
        NewLineJoins(line, ids, FoldLines(prefix, " " + ids[0], ids[1..]));
      } else {
        ExtendedHolds(line, ids[0]);
        FoldLinesJoin(prefix, line + " " + ids[0], ids[1..]);
      }
    }
  }

  predicate FitsLine(prefix: string, line: string) {
    || Width(line) <= 78
    || (prefix <= line && IsId(line[|prefix|..]))
    || (line != "" && line[0] == ' ' && IsId(line[1..]))
  }

  lemma {:induction false} WidthOfSpace()
    ensures Width(" ") == 1
  {
    assert " "[1..] == "";
  }

  lemma {:induction false} TrimOfExtended(line: string, part: string)
    requires Holds(line) && IsId(part)
    ensures Trim(line + " " + part) == TrimStart(line) + " " + part
    decreases |line|
  {
    var whole := line + " " + part;
    if IsSpace(line[0]) {
      assert whole[1..] == line[1..] + " " + part;
      assert Holds(line[1..]);
      TrimOfExtended(line[1..], part);
    } else {
      assert part[|part| - 1] in part;
      TrimOfLine("", whole);
      assert "" + whole == whole;
    }
  }

  /** No line is over the limit unless it holds a single id. */
  lemma {:induction false} FoldLinesFit(name: string, line: string, ids: seq<string>)
    requires IsId(name) && name + ":" !in ids
    requires Holds(line) && FitsLine(name + ": ", line) && Trim(line) != name + ":"
    requires forall id <- ids :: IsId(id)
    ensures forall l <- FoldLines(name + ": ", line, ids) :: FitsLine(name + ": ", l)
    decreases |ids|
  {
    hide Trim, TrimStart, Width, IsSpace;
    var prefix := name + ": ";
    if ids != [] {
      var id := ids[0];
      assert IsId(id);
      TrimOfPrefix(name);
      if StartsNewLine(prefix, line, id) {
        TrimOfLine(" ", id) by {
          assert id[0] in id && id[|id| - 1] in id;
        }
        assert (" " + id)[1..] == id;
        FoldLinesFit(name, " " + id, ids[1..]);
      } else {
        ExtendedHolds(line, id);
        WidthAppend(line + " ", id);
        WidthAppend(line, " ");
        WidthOfSpace();
        TrimOfExtended(line, id);
        assert ' ' !in name + ":" by { IdIsOneLine(name); }
        assert ' ' in TrimStart(line) + " " + id;
        FoldLinesFit(name, line + " " + id, ids[1..]);
      }
    }
  }

  function FirstId(line: string): string
    requires line != ""
  {
    Split(line[1..], ' ')[0]
  }

  /** `next` was started because its first id did not fit on `line`. */
  predicate NoRoomOn(line: string, next: string) {
    next != "" && Width(line) + Width(FirstId(next)) + 1 > 78
  }

  predicate FilledInOrder(lines: seq<string>) {
    forall i, j :: 0 <= i && j == i + 1 < |lines| ==> NoRoomOn(lines[i], lines[j])
  }

  lemma {:induction false} FirstIdOfLine(line: string, id: string)
    requires IsId(id) && (line == " " + id || " " + id + " " <= line)
    ensures FirstId(line) == id
  {
    IdIsOneLine(id);
    if line == " " + id {
      assert line[1..] == id;
      SplitOne(id, ' ');
    } else {
      var rest := line[|id| + 2..];
      assert line[1..] == id + [' '] + rest;
      SplitPiece(id, rest, ' ');
    }
  }

  lemma {:induction false} FoldLinesFill(prefix: string, line: string, ids: seq<string>)
    requires Holds(line) && OneLine(line)
    requires forall id <- ids :: IsId(id)
    ensures FilledInOrder(FoldLines(prefix, line, ids))
    decreases |ids|
  {
    hide Trim, Width, IsSpace;
    if ids != [] {
      var id := ids[0];
      assert IsId(id);
      IdIsOneLine(id);
      assert Holds(" " + id) by {
        assert id[|id| - 1] in id;
      }
      if StartsNewLine(prefix, line, id) {
        FoldLinesFill(prefix, " " + id, ids[1..]);
        FoldLinesJoin(prefix, " " + id, ids[1..]);
        var rest := FoldLines(prefix, " " + id, ids[1..]);
        FirstIdOfLine(rest[0], id);
        assert NoRoomOn(line, rest[0]);
      } else {
        ExtendedHolds(line, id);
        FoldLinesFill(prefix, line + " " + id, ids[1..]);
      }
    }
  }

  function Prefix(name: string): string {
    name + ": "
  }

  lemma {:induction false} FirstLine(name: string, id: string)
    requires IsId(name) && IsId(id)
    ensures var first := Prefix(name) + id;
            Holds(first) && OneLine(first) && |first| > |name + ":"| && first[0] == name[0] && !IsSpace(first[0])
  {
    IdIsOneLine(name);
    IdIsOneLine(id);
    hide IsSpace;
    assert id[|id| - 1] in id && name[0] in name;
  }

  /** The first id always goes on the first line. */
  lemma {:induction false} FoldStarts(name: string, ids: seq<string>)
    requires IsId(name) && ids != [] && forall id <- ids :: IsId(id)
    ensures var p, first := Prefix(name), Prefix(name) + ids[0];
            && FoldLines(p, p, ids) == FoldLines(p, first, ids[1..])
            && Holds(first) && OneLine(first) && Trim(first) != name + ":"
  {
    hide Trim, FoldLines, IsSpace, IsId, OneLine;
    TrimOfPrefix(name);
    var first := Prefix(name) + ids[0];
    FirstLine(name, ids[0]);
    assert "" + first == first;
    TrimOfLine("", first);
    FoldStep(Prefix(name), ids);
  }

  lemma {:induction false} FoldStep(p: string, ids: seq<string>)
    requires ids != [] && Trim(p) != "" && EndsWithSpace(p)
    ensures FoldLines(p, p, ids) == FoldLines(p, p + ids[0], ids[1..])
  {
    hide Trim;
    assert p + "" + ids[0] == p + ids[0];
  }

  /** What the lines of a folded header are when it is too long for one. */
  lemma {:induction false} FoldedLines(name: string, ids: seq<string>)
    requires IsId(name) && ids != [] && forall id <- ids :: IsId(id)
    ensures var ls := FoldLines(Prefix(name), Prefix(name), ids);
            && Concat(ls) == Prefix(name) + Join(ids, " ")
            && Prefix(name) <= ls[0] && OneLine(ls[0])
            && (forall l <- ls[1..] :: IsContinuation(l))
            && FilledInOrder(ls)
            && (name + ":" !in ids ==> forall l <- ls :: FitsLine(Prefix(name), l))
  {
    hide FoldLines, Trim, Width, IsSpace, Join;
    var p, first := Prefix(name), Prefix(name) + ids[0];
    FoldStarts(name, ids);
    FoldLinesJoin(p, first, ids[1..]);
    FoldLinesFill(p, first, ids[1..]);
    JoinSpaced(ids);
    assert first[|p|..] == ids[0] && IsId(ids[0]);
    if name + ":" !in ids {
      FoldLinesFit(name, first, ids[1..]);
    }
  }

  lemma {:induction false} FoldedOneLine(name: string, ids: seq<string>)
    requires IsId(name) && ids != [] && forall id <- ids :: IsId(id)
    requires Width(Prefix(name)) + Width(Join(ids, " ")) <= LINE_LIMIT
    ensures var h := Folded(name, Join(ids, " "));
            Lines(h) == [Prefix(name) + Join(ids, " ")] && Width(h) <= LINE_LIMIT
  {
    hide Width;
    forall id <- ids ensures OneLine(id) {
      IdIsOneLine(id);
    }
    IdIsOneLine(name);
    JoinOneLine(ids);
    WidthAppend(Prefix(name), Join(ids, " "));
    OneLineIsItself(Prefix(name) + Join(ids, " "));
  }

  lemma {:induction false} JoinOneLine(parts: seq<string>)
    requires forall p <- parts :: OneLine(p)
    ensures OneLine(Join(parts, " "))
  {
    if parts != [] {
      assert OneLine(parts[0]);
      JoinOneLine(parts[1..]);
    }
  }

  lemma {:induction false} FoldedManyLines(name: string, ids: seq<string>)
    requires IsId(name) && ids != [] && forall id <- ids :: IsId(id)
    requires Width(Prefix(name)) + Width(Join(ids, " ")) > LINE_LIMIT
    ensures Lines(Folded(name, Join(ids, " "))) == FoldLines(Prefix(name), Prefix(name), ids)
  {
    hide Width, Trim, IsSpace, FoldLines, Join;
    forall id <- ids ensures ' ' !in id {
      IdIsOneLine(id);
    }
    SplitJoined(ids, ' ');
    var ls := FoldLines(Prefix(name), Prefix(name), ids);
    FoldedLines(name, ids);
    forall l <- ls ensures OneLine(l) {
      assert l == ls[0] || l in ls[1..];
    }
    LinesJoin(ls);
    PlainLines(ls);
  }

  /**
   * A folded header unfolds to the header (section 2.2.3 of RFC 5322), breaks only before
   * an id that did not fit, and has no line over 78 characters but those of a single id.
   */
  lemma {:induction false} FoldingUnfolds(name: string, ids: seq<string>)
    requires IsId(name) && ids != [] && forall id <- ids :: IsId(id)
    ensures var ls := Lines(Folded(name, Join(ids, " ")));
            && Concat(ls) == Prefix(name) + Join(ids, " ")
            && Prefix(name) <= ls[0]
            && (forall l <- ls[1..] :: IsContinuation(l))
            && FilledInOrder(ls)
            && (name + ":" !in ids ==> forall l <- ls :: FitsLine(Prefix(name), l))
  {
    hide Width, Trim, IsSpace, FoldLines, Join, Lines;
    if Width(Prefix(name)) + Width(Join(ids, " ")) <= LINE_LIMIT {
      FoldedOneLine(name, ids);
      var line := Prefix(name) + Join(ids, " ");
      assert Concat([line]) == line + Concat([line][1..]);
    } else {
      FoldedLines(name, ids);
      FoldedManyLines(name, ids);
    }
  }

  /** Ids in angle brackets, as replies list them, never overrun: a line over 78 characters holds one id. */
  lemma {:induction false} BracketedIdsFit(name: string, ids: seq<string>)
    requires IsId(name) && name[0] != '<' && ids != [] && forall id <- ids :: IsId(id) && id[0] == '<'
    ensures forall l <- Lines(Folded(name, Join(ids, " "))) :: FitsLine(Prefix(name), l)
  {
    hide Join, Lines, Folded, FitsLine;
    assert (name + ":")[0] == name[0];
    FoldingUnfolds(name, ids);
  }

  lemma {:induction false} NameIsId(name: string)
    requires IsId(name)
    ensures IsId(name + ":")
  {
  }

  lemma {:induction false} LineOfNameTakesTheNext(name: string, y: string)
    requires IsId(name) && IsId(y)
    ensures var p, line := Prefix(name), " " + (name + ":");
            FoldLines(p, line, [y]) == [line + " " + y]
  {
    hide Width, IsSpace;
    var p, line := Prefix(name), " " + (name + ":");
    TrimOfPrefix(name);
    NameIsId(name);
    assert name[0] in name;
    TrimOfLine(" ", name + ":") by {
      assert IsId(name + ":") && (name + ":")[|name|] in name + ":" && (name + ":")[0] in name + ":";
    }
    assert !StartsNewLine(p, line, y);
    hide Trim;
    ExtendedHolds(line, y) by {
      assert (name + ":")[|name|] in name + ":";
    }
    assert [y][1..] == [];
  }

  lemma {:induction false} OverrunningLine(name: string, y: string)
    requires IsId(name) && IsId(y)
    requires Width(" " + (name + ":")) + Width(y) + 1 > LINE_LIMIT
    ensures !FitsLine(Prefix(name), " " + (name + ":") + " " + y)
  {
    hide Width;
    var lead := " " + (name + ":");
    var line := lead + " " + y;
    WidthAppend(lead + " ", y);
    WidthAppend(lead, " ");
    WidthOfSpace();
    assert name[0] in name && line[0] == ' ';
    assert line[1..][|name| + 1] == ' ' && ' ' in line[1..];
  }

  /** An id that reads like the header's name stops the folding: its line takes the next id whatever the width. */
  lemma {:induction false} IdLikeTheNameOverruns(name: string, x: string, y: string)
    requires IsId(name) && IsId(x) && IsId(y)
    requires Width(Prefix(name) + x) + Width(name + ":") + 1 > LINE_LIMIT
    requires Width(" " + (name + ":")) + Width(y) + 1 > LINE_LIMIT
    ensures var line := " " + (name + ":") + " " + y;
            && FoldLines(Prefix(name), Prefix(name), [x, name + ":", y]) == [Prefix(name) + x, line]
            && !FitsLine(Prefix(name), line)
  {
    hide Width, Trim, IsSpace;
    var p, id := Prefix(name), name + ":";
    NameIsId(name);
    TrimOfPrefix(name);
    FoldStarts(name, [x, id, y]);
    assert [x, id, y][1..] == [id, y] && [id, y][1..] == [y];
    LineOfNameTakesTheNext(name, y);
    OverrunningLine(name, y);
  }
}
