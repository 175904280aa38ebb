/** What a reader shows of a header value. */
module EncodedWords {
  // Which words a mail reader decodes, and in which charsets, is its own choice: a decoder is
  // any function that decodes nothing but what has the shape of an encoded word (section 2 of
  // RFC 2047), and reads the words written here.

  import opened Basics
  import opened Encoding
  import opened Strings
  import opened Headers

  // ---- The shape of an encoded word ----

  const WORD_MAX := 75

  /** The characters that RFC 2047 reserves in charset names. */
  predicate IsSpecial(c: char) {
    || c == '(' || c == ')' || c == '<' || c == '>' || c == '@' || c == ',' || c == ';' || c == ':' || c == '"'
    || c == '/' || c == '[' || c == ']' || c == '?' || c == '.' || c == '='
  }

  predicate IsCharset(s: string) {
    IsToken(s) && forall i :: 0 <= i < |s| ==> !IsSpecial(s[i])
  }

  /** Base64 or quoted-printable, in either case. */
  predicate IsMethod(c: char) {
    c == 'B' || c == 'b' || c == 'Q' || c == 'q'
  }

  predicate IsText(s: string) {
    IsToken(s) && forall i :: 0 <= i < |s| ==> s[i] != '?'
  }

  function Shape(charset: string, how: char, text: string): string {
    "=?" + charset + "?" + [how] + "?" + text + "?="
  }

  ghost predicate IsShaped(token: string) {
    |token| <= WORD_MAX
    && exists charset, how, text ::
         IsCharset(charset) && IsMethod(how) && IsText(text) && token == Shape(charset, how, text)
  }

  lemma {:induction false} ShapeIsShaped(charset: string, how: char, text: string)
    requires IsCharset(charset) && IsMethod(how) && IsText(text)
    requires |charset| + |text| <= 68
    ensures IsShaped(Shape(charset, how, text))
  {
    assert |Shape(charset, how, text)| == |charset| + |text| + 7;
  }

  lemma {:induction false} CodeIsText(part: string)
    requires part != ""
    ensures IsText(Encoded(part))
  {
    CodeIsOneToken(part);
    Base64Alphabet(Utf8(part));
    forall i | 0 <= i < |Encoded(part)| ensures Encoded(part)[i] != '?' {
      assert IsBase64Char(Encoded(part)[i]);
    }
  }

  lemma {:induction false} WordHasShape(text: string)
    ensures WORD_START + text + WORD_END == Shape("UTF-8", 'B', text)
  {
    assert "=?" + "UTF-8" + "?" + ['B'] + "?" == WORD_START;
  }

  lemma {:induction false} OwnCharset()
    ensures IsCharset("UTF-8") && IsMethod('B') && |"UTF-8"| == 5
  {
  }

  lemma {:induction false} WordIsShaped(part: string)
    requires Fits(part)
    ensures IsShaped(Word(part))
  {
    CodeIsText(part);
    hide Encoded, IsShaped, Shape, IsCharset, IsMethod, IsText;
    OwnCharset();
    ShapeIsShaped("UTF-8", 'B', Encoded(part));
    WordHasShape(Encoded(part));
  }

  // ---- Decoders ----

  type Decoder = string -> Option<string>

  ghost predicate IsDecoder(d: Decoder) {
    && (forall t :: d(t).Some? ==> IsShaped(t))
    && (forall p :: Fits(p) ==> d(Word(p)) == Some(p))
  }

  predicate IsBlank(c: char) {
    c == ' ' || c == '\t'
  }

  /** A header value is tokens with linear white space between them. */
  datatype Lexeme = Gap(text: string) | Token(text: string)

  /** How many characters are blank like the first one, or not blank like it. */
  function Alike(s: string): (n: nat)
    requires s != ""
    ensures 1 <= n <= |s|
  {
    if |s| > 1 && IsBlank(s[1]) == IsBlank(s[0]) then 1 + Alike(s[1..]) else 1
  }

  function Lex(s: string): seq<Lexeme>
    decreases |s|
  {
    if s == "" then []
    else
      var n := Alike(s);
      [if IsBlank(s[0]) then Gap(s[..n]) else Token(s[..n])] + Lex(s[n..])
  }

  /** A gap between two words that are both decoded is not part of the text (section 6.2 of RFC 2047). */
  predicate JoinsWords(d: Decoder, lexemes: seq<Lexeme>) {
    && |lexemes| > 2 && lexemes[0].Token? && lexemes[1].Gap? && lexemes[2].Token?
    && d(lexemes[0].text).Some? && d(lexemes[2].text).Some?
  }

  function Decode(d: Decoder, lexemes: seq<Lexeme>): string {
    if lexemes == [] then ""
    else if lexemes[0].Token? && d(lexemes[0].text).Some? then
      d(lexemes[0].text).value + Decode(d, if JoinsWords(d, lexemes) then lexemes[2..] else lexemes[1..])
    else lexemes[0].text + Decode(d, lexemes[1..])
  }

  /** What a reader with this decoder shows for a header value, folded or not. */
  function Shown(d: Decoder, value: string): string {
    Decode(d, Lex(Unfolded(value)))
  }

  // ---- Words written here ----

  lemma {:induction false} AlikeIs(t: string, u: string)
    requires t != "" && forall i :: 0 <= i < |t| ==> IsBlank(t[i]) == IsBlank(t[0])
    requires u != "" ==> IsBlank(u[0]) != IsBlank(t[0])
    ensures Alike(t + u) == |t|
  {
    if |t| > 1 {
      assert (t + u)[1..] == t[1..] + u;
      AlikeIs(t[1..], u);
    }
  }

  lemma {:induction false} TokenHasNoBlanks(t: string)
    requires IsToken(t)
    ensures forall i :: 0 <= i < |t| ==> !IsBlank(t[i])
  {
    forall i | 0 <= i < |t| ensures !IsBlank(t[i]) {
      assert t[i] in t;
    }
  }

  lemma {:induction false} LexStart(t: string, u: string)
    requires t != "" && Alike(t + u) == |t|
    ensures Lex(t + u) == [if IsBlank(t[0]) then Gap(t) else Token(t)] + Lex(u)
  {
    assert (t + u)[..|t|] == t && (t + u)[|t|..] == u;
  }

  lemma {:induction false} LexOne(t: string)
    requires IsToken(t)
    ensures Lex(t) == [Token(t)]
  {
    hide Lex, IsBlank;
    TokenHasNoBlanks(t);
    AlikeIs(t, "");
    LexStart(t, "");
    assert t + "" == t;
    assert Lex("") == [] by {
      LexNothing();
    }
  }

  lemma {:induction false} LexNothing()
    ensures Lex("") == []
  {
  }

  lemma {:induction false} LexFirst(t: string, b: char, rest: string)
    requires IsToken(t) && IsBlank(b) && rest != "" && !IsBlank(rest[0])
    ensures Lex(t + [b] + rest) == [Token(t), Gap([b])] + Lex(rest)
  {
    hide Lex, IsBlank, IsToken;
    TokenHasNoBlanks(t);
    TokenIsNotEmpty(t);
    AlikeIs([b], rest);
    LexStart([b], rest);
    AlikeIs(t, [b] + rest);
    LexStart(t, [b] + rest);
    assert t + [b] + rest == t + ([b] + rest);
  }

  lemma {:induction false} TokenIsNotEmpty(t: string)
    requires IsToken(t)
    ensures t != ""
  {
  }

  lemma {:induction false} JoinedStart(words: seq<string>)
    requires words != [] && forall i :: 0 <= i < |words| ==> IsToken(words[i])
    ensures var s := Join(words, " "); s != "" && !IsBlank(s[0])
    ensures Lex(Join(words, " ")) != [] && Lex(Join(words, " "))[0] == Token(words[0])
  {
    TokenHasNoBlanks(words[0]);
    assert Join(words, " ")[0] == words[0][0];
    if |words| == 1 {
      LexOne(words[0]);
    } else {
      JoinedStart(words[1..]);
      LexFirst(words[0], ' ', Join(words[1..], " "));
    }
  }

  lemma {:induction false} DecodeOne(d: Decoder, t: string)
    requires d(t).Some?
    ensures Decode(d, [Token(t)]) == d(t).value
  {
    assert [Token(t)][1..] == [];
  }

  lemma {:induction false} DecodeJoined(d: Decoder, t: string, gap: string, rest: seq<Lexeme>)
    requires d(t).Some? && rest != [] && rest[0].Token? && d(rest[0].text).Some?
    ensures Decode(d, [Token(t), Gap(gap)] + rest) == d(t).value + Decode(d, rest)
  {
    assert ([Token(t), Gap(gap)] + rest)[2..] == rest;
  }

  lemma {:induction false} WordsDecode(d: Decoder, pieces: seq<string>)
    requires IsDecoder(d) && pieces != [] && forall i :: 0 <= i < |pieces| ==> Fits(pieces[i])
    ensures Decode(d, Lex(Join(Words(pieces), " "))) == Concat(pieces)
  {
    hide Word, Encoded, IsShaped, Decode, Lex;
    var words := Words(pieces);
    forall i | 0 <= i < |words| ensures IsToken(words[i]) {
      WordIsOneToken(pieces[i]);
    }
    assert Fits(pieces[0]);
    if |pieces| == 1 {
      LexOne(words[0]);
      DecodeOne(d, words[0]);
      assert Concat(pieces[1..]) == "";
    } else {
      var rest := Join(words[1..], " ");
      assert words[1..] == Words(pieces[1..]) && Fits(pieces[1]);
      WordsDecode(d, pieces[1..]);
      JoinedStart(words[1..]);
      LexFirst(words[0], ' ', rest);
      DecodeJoined(d, words[0], [' '], Lex(rest));
    }
  }

  lemma {:induction false} FoldedPiecesDecode(d: Decoder, pieces: seq<string>)
    requires IsDecoder(d) && pieces != [] && forall p <- pieces :: Fits(p)
    ensures Shown(d, Join(Words(pieces), CRLF + " ")) == Concat(pieces)
  {
    hide Word, Decode, Encoded, IsDecoder;
    forall p <- pieces ensures IsToken(Word(p)) {
      assert Fits(p);
      WordIsOneToken(p);
    }
    FoldedWordsUnfold(Words(pieces));
    WordsDecode(d, pieces);
  }

  lemma {:induction false} NonAsciiIsShown(d: Decoder, cleaned: string)
    requires IsDecoder(d) && !IsAscii(cleaned)
    ensures Shown(d, Join(Words(Pieces("", cleaned)), CRLF + " ")) == cleaned
  {
    hide Encoded, Shown, Join, Words, Fits, IsDecoder;
    PiecesSplitTheValue("", cleaned);
    NothingEncoded();
    PiecesFit("", cleaned);
    assert Concat([]) == "";
    FoldedPiecesDecode(d, Pieces("", cleaned));
  }

  // ---- Text sent as it is ----

  function Flat(lexemes: seq<Lexeme>): string {
    if lexemes == [] then "" else lexemes[0].text + Flat(lexemes[1..])
  }

  lemma {:induction false} FlatFirst(lexeme: Lexeme, rest: seq<Lexeme>)
    ensures Flat([lexeme] + rest) == lexeme.text + Flat(rest)
  {
    assert ([lexeme] + rest)[1..] == rest;
  }

  lemma {:induction false} LexKeepsText(s: string)
    ensures Flat(Lex(s)) == s
    decreases |s|
  {
    if s != "" {
      hide Alike;
      var n := Alike(s);
      LexKeepsText(s[n..]);
      FlatFirst(if IsBlank(s[0]) then Gap(s[..n]) else Token(s[..n]), Lex(s[n..]));
      assert s == s[..n] + s[n..];
    }
  }

  /** Some token is decoded. */
  predicate Decodes(d: Decoder, lexemes: seq<Lexeme>) {
    exists i :: 0 <= i < |lexemes| && lexemes[i].Token? && d(lexemes[i].text).Some?
  }

  /** What is read of a word is shorter than the word. */
  ghost predicate Shortens(d: Decoder) {
    forall t :: d(t).Some? ==> |d(t).value| < |t|
  }

  lemma {:induction false} PlainIsShown(d: Decoder, lexemes: seq<Lexeme>)
    requires !Decodes(d, lexemes)
    ensures Decode(d, lexemes) == Flat(lexemes)
  {
    if lexemes != [] {
      forall i | 0 <= i < |lexemes| - 1 && lexemes[1..][i].Token? ensures d(lexemes[1..][i].text).None? {
        assert lexemes[1..][i] == lexemes[i + 1];
      }
      PlainIsShown(d, lexemes[1..]);
    }
  }

  lemma {:induction false} DecodingShortens(d: Decoder, lexemes: seq<Lexeme>)
    requires Shortens(d)
    ensures |Decode(d, lexemes)| <= |Flat(lexemes)|
    ensures Decodes(d, lexemes) ==> |Decode(d, lexemes)| < |Flat(lexemes)|
    decreases |lexemes|
  {
    if lexemes != [] {
      DecodingShortens(d, lexemes[1..]);
      if JoinsWords(d, lexemes) {
        DecodingShortens(d, lexemes[2..]);
        assert lexemes[1..][1..] == lexemes[2..];
      }
      if Decodes(d, lexemes) && !(lexemes[0].Token? && d(lexemes[0].text).Some?) {
        var i :| 0 <= i < |lexemes| && lexemes[i].Token? && d(lexemes[i].text).Some?;
        assert lexemes[1..][i - 1] == lexemes[i];
      }
    }
  }

  // ---- What is shown ----

  /** ASCII text is sent as it is, and shown with whatever words it contains decoded. */
  lemma {:induction false} AsciiIsRead(d: Decoder, value: string)
    requires IsAscii(Clean(value))
    ensures Shown(d, EncodeHeaderValue(value)) == Decode(d, Lex(Clean(value)))
    ensures Flat(Lex(Clean(value))) == Clean(value)
  {
    hide Clean, Lex, Decode;
    CleanIsOneLine(value);
    UnfoldedOneLine(Clean(value));
    LexKeepsText(Clean(value));
  }

  /**
   * A reader shows the cleaned value, for every value but one kind: ASCII text with a token
   * that it decodes. Those are shown otherwise by any reader whose words are longer than
   * what they stand for.
   */
  lemma {:induction false} HeaderValueDecodesExactly(d: Decoder, value: string)
    requires IsDecoder(d)
    ensures !(IsAscii(Clean(value)) && Decodes(d, Lex(Clean(value)))) ==>
              Shown(d, EncodeHeaderValue(value)) == Clean(value)
    ensures Shortens(d) ==>
              (Shown(d, EncodeHeaderValue(value)) == Clean(value)
               <==> !(IsAscii(Clean(value)) && Decodes(d, Lex(Clean(value)))))
  {
    hide Clean, Lex, Decode, Decodes, IsDecoder, Shortens, Shown, Pieces, Words;
    var cleaned := Clean(value);
    if IsAscii(cleaned) {
      AsciiIsRead(d, value);
      if !Decodes(d, Lex(cleaned)) {
        PlainIsShown(d, Lex(cleaned));
      } else if Shortens(d) {
        DecodingShortens(d, Lex(cleaned));
      }
    } else {
      NonAsciiIsShown(d, cleaned);
    }
  }

  ghost predicate HasShapedToken(s: string) {
    exists i :: 0 <= i < |Lex(s)| && Lex(s)[i].Token? && IsShaped(Lex(s)[i].text)
  }

  /** A reader that takes everything that looks like an encoded word for one. */
  lemma {:induction false} LiberalReader() returns (d: Decoder)
    ensures IsDecoder(d) && Shortens(d) && forall t :: IsShaped(t) ==> d(t).Some?
  {
    hide IsShaped, Word;
    d := t => if !IsShaped(t) then None else if ReadWord(t).Some? then ReadWord(t) else Some("");
    forall p | Fits(p) ensures d(Word(p)) == Some(p) {
      WordReads(p);
      WordIsShaped(p);
    }
    forall t | d(t).Some? ensures |d(t).value| < |t| {
      ShapedIsToken(t);
    }
  }

  lemma {:induction false} ShapedIsToken(t: string)
    requires IsShaped(t)
    ensures IsToken(t)
  {
    var charset, how, text :|
      IsCharset(charset) && IsMethod(how) && IsText(text) && t == Shape(charset, how, text);
    TokenAppend("=?", charset);
    TokenAppend("=?" + charset, "?");
    TokenAppend("=?" + charset + "?", [how]);
    TokenAppend("=?" + charset + "?" + [how], "?");
    TokenAppend("=?" + charset + "?" + [how] + "?", text);
    TokenAppend("=?" + charset + "?" + [how] + "?" + text, "?=");
  }

  /** Every reader shows the cleaned value exactly when it is not ASCII or no token of it looks like a word. */
  lemma {:induction false} EveryReaderShowsTheValueExactly(value: string)
    ensures (forall d: Decoder :: IsDecoder(d) ==> Shown(d, EncodeHeaderValue(value)) == Clean(value))
            <==> !(IsAscii(Clean(value)) && HasShapedToken(Clean(value)))
  {
    hide Clean, Lex, Shown, IsShaped, EncodeHeaderValue, IsAscii;
    if IsAscii(Clean(value)) && HasShapedToken(Clean(value)) {
      var d := LiberalReader();
      HeaderValueDecodesExactly(d, value);
    } else {
      forall d: Decoder | IsDecoder(d) ensures Shown(d, EncodeHeaderValue(value)) == Clean(value) {
        HeaderValueDecodesExactly(d, value);
      }
    }
  }

  // ---- The exception ----

  /** Text that looks like an encoded word is sent as it is, and shown as what a reader takes it for. */
  lemma {:induction false} EncodedWordInAscii(d: Decoder, t: string)
    requires IsShaped(t) && d(t).Some?
    ensures IsAscii(Clean(t)) && HasShapedToken(Clean(t)) && EncodeHeaderValue(t) == t
    ensures Shown(d, t) == d(t).value
  {
    hide IsShaped, Clean, EncodeHeaderValue, Lex, Decode;
    ShapedIsToken(t);
    TokenIsSentAsItIs(t);
    AsciiIsRead(d, t);
    LexOne(t);
    DecodeOne(d, t);
    assert Lex(t)[0] == Token(t);
  }

  /** Other spellings have the shape as well: another case, quoted-printable, another charset. */
  lemma {:induction false} OtherSpellings()
    ensures IsShaped(Shape("utf-8", 'B', "YQ=="))
    ensures IsShaped(Shape("UTF-8", 'Q', "a"))
    ensures IsShaped(Shape("iso-8859-1", 'q', "=E9"))
  {
    hide IsShaped, Shape;
    ShapeIsShaped("utf-8", 'B', "YQ==");
    ShapeIsShaped("UTF-8", 'Q', "a");
    ShapeIsShaped("iso-8859-1", 'q', "=E9");
  }

  lemma {:induction false} DecodePlain(d: Decoder, lexeme: Lexeme, rest: seq<Lexeme>)
    requires lexeme.Token? ==> d(lexeme.text).None?
    ensures Decode(d, [lexeme] + rest) == lexeme.text + Decode(d, rest)
  {
    assert ([lexeme] + rest)[1..] == rest;
  }

  /** Words after a tab are read as well. */
  lemma {:induction false} EncodedWordAfterATab(d: Decoder, u: string, t: string)
    requires IsToken(u) && d(u).None? && IsShaped(t) && d(t).Some?
    ensures Decode(d, Lex(u + ['\t'] + t)) == u + ['\t'] + d(t).value
  {
    hide IsShaped, Lex, Decode;
    ShapedIsToken(t);
    TokenHasNoBlanks(t);
    LexFirst(u, '\t', t);
    LexOne(t);
    DecodeOne(d, t);
    DecodePlain(d, Gap(['\t']), [Token(t)]);
    DecodePlain(d, Token(u), [Gap(['\t'])] + [Token(t)]);
    assert [Token(u), Gap(['\t'])] + [Token(t)] == [Token(u)] + ([Gap(['\t'])] + [Token(t)]);
  }
}
