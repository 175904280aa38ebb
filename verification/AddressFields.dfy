/** What a reader gets of the addresses the composer writes, and where a list comes apart. */
module AddressFields {
  import opened Basics
  import opened Strings
  import opened Text
  import opened Encoding
  import opened Headers
  import opened MimeParser
  import opened MimeParts
  import opened MimeRoundTrip
  import opened EncodedWords
  import opened Recipients
  import opened Addresses
  import opened RecipientForms

  // ---- One address in a header ----

  predicate IsUsable(address: string) {
    IsCanonical(address) && |address| <= MAX_ADDRESS_CHARS
  }

  /** A name in ASCII that is written as it is. */
  predicate IsVerbatimName(name: string) {
    IsTypedName(name) && IsAscii(name) && !Composer.IsSimpleName(name)
  }

  predicate IsSimpleTrimmedName(name: string) {
    Composer.IsSimpleName(name) && Trim(name) == name && |name| <= MAX_NAME_CHARS - 2
  }

  lemma {:induction false} UsableIsTrimmed(address: string)
    requires IsUsable(address)
    ensures Trim(address) == address && IsPlain(address) && address != "" && !HasControlCharacter(address)
    ensures IsAddress(address) && LowercaseDomain(address) == address
  {
    AddressIsPlain(address);
    Trimmed(address);
    PlainHasNoControl(address);
  }

  /** Without a name, the address is all there is, and it is read back. */
  lemma {:induction false} BareFieldReads(address: string)
    requires IsUsable(address)
    ensures var field := Composer.FormatAddress(Composer.Address("", address));
            field == address && ParseRecipient(field) == Ok(Recipient("", address))
  {
    UsableIsTrimmed(address);
    hide IsAddress, LowercaseDomain, Trim, ParseRecipient;
    AddressAloneReads(address);
  }

  lemma {:induction false} NoBreaks(s: string)
    requires OneLine(s)
    ensures CollapseBreaks(s) == s
  {
    if s != "" {
      assert s[0] in s;
      NoBreaks(s[1..]);
      assert s == [s[0]] + s[1..];
    }
  }

  /** One line is only trimmed. */
  lemma {:induction false} OneLineIsTrimmed(s: string)
    requires OneLine(s)
    ensures Clean(s) == Trim(s)
  {
    hide Trim;
    NoBreaks(s);
  }

  lemma {:induction false} TypedNameIsOneLine(name: string)
    requires IsTypedName(name)
    ensures OneLine(name) && Clean(name) == name && Trim(name) == name
  {
    assert IsControl('\r') && IsControl('\n');
    TrimOfTrimmed(name);
    hide IsControl, IsSpace, Trim, Width, Clean;
    assert OneLine(name);
    OneLineIsTrimmed(name);
  }

  lemma {:induction false} VerbatimIs(name: string, address: string)
    requires IsVerbatimName(name) && IsUsable(address)
    ensures Composer.FormatAddress(Composer.Address(name, address)) == Bracketed(name, address)
  {
    TypedNameIsOneLine(name);
    UsableIsTrimmed(address);
    assert name != "";
    hide IsTypedName, Clean, Trim, Composer.IsSimpleName, IsAscii, IsUsable;
  }

  lemma SpacedIs(name: string, address: string)
    ensures InBrackets(name, " ", "" + address + "") == Bracketed(name, address)
  {
    assert "" + address + "" == address;
  }

  lemma {:induction false} SpacedBracketsRead(name: string, address: string)
    requires IsTypedName(name) && IsUsable(address)
    ensures ParseRecipient(Bracketed(name, address)) == Ok(Recipient(Unquoted(name), address))
  {
    UsableIsTrimmed(address);
    OneSpace();
    assert |address| <= MAX_ADDRESS_CHARS;
    hide IsTypedName, ParseRecipient, IsAddress, IsLocalPart, IsDomain, LowercaseDomain, Unquoted, Lower, Trim,
         HasControlCharacter, IsAllSpace, IsUsable, IsPlain, InBrackets, Bracketed;
    var local, domain := AddressParts(address);
    JoinedIsAddress(local, domain);
    SpacedIs(name, address);
    NamedAddressReads(name, " ", "", local, domain, "");
  }

  /** A name in ASCII is read back, but for quotes around it; the address is the one that was given. */
  lemma {:induction false} AsciiNameReads(name: string, address: string)
    requires (IsVerbatimName(name) || IsSimpleTrimmedName(name)) && IsUsable(address)
    ensures ParseRecipient(Composer.FormatAddress(Composer.Address(name, address)))
         == Ok(Recipient(if IsSimpleTrimmedName(name) then name else Unquoted(name), address))
  {
    hide ParseRecipient, Unquoted, Trim, IsTypedName, Composer.FormatAddress, Bracketed, IsCanonical,
         Composer.IsSimpleName;
    if IsSimpleTrimmedName(name) {
      FormattedReads(Composer.Address(name, address));
    } else {
      VerbatimIs(name, address);
      SpacedBracketsRead(name, address);
    }
  }

  lemma OneSpace()
    ensures IsAllSpace(" ") && IsAllSpace("") && !HasControlCharacter(" ") && !HasControlCharacter("")
  {
  }

  /** Letters, digits, underscores, spaces, periods, apostrophes and hyphens. */
  predicate IsOrdinary(name: string) {
    name != "" && forall c <- name :: IsLetter(c) || '0' <= c <= '9' || c in "_ .'-"
  }

  /** Such a name is written as it is, and in quotes exactly if it has a period, which is special in an address. */
  lemma {:induction false} PeriodsAreQuoted(name: string, address: string)
    requires IsOrdinary(name) && Trim(name) == name && Trim(address) == address
    ensures Composer.FormatAddress(Composer.Address(name, address))
         == (if '.' in name then "\"" + name + "\"" else name) + " <" + address + ">"
  {
    assert Composer.IsSimpleName(name);
    hide Trim, Composer.IsSimpleName, IsOrdinary;
    assert "\"" + name + "\" <" + address + ">" == "\"" + name + "\"" + " <" + address + ">";
  }

  // ---- A name that is encoded ----

  lemma {:induction false} WordsThenToken(d: Decoder, pieces: seq<string>, last: string)
    requires IsDecoder(d) && forall i :: 0 <= i < |pieces| ==> Fits(pieces[i])
    requires IsToken(last) && d(last).None?
    ensures Decode(d, Lex(Join(Words(pieces) + [last], " ")))
         == Concat(pieces) + (if pieces == [] then "" else " ") + last
  {
    hide Word, Headers.Encoded, IsShaped, Decode, Lex;
    var words := Words(pieces) + [last];
    if pieces == [] {
      assert words == [last];
      LexOne(last);
      DecodePlain(d, Token(last), []);
      assert [Token(last)] + [] == [Token(last)] && Decode(d, []) == "" by { NothingDecodes(d); }
      assert last + "" == last;
    } else {
      assert Fits(pieces[0]);
      WordIsOneToken(pieces[0]);
      assert words[0] == Word(pieces[0]) && words[1..] == Words(pieces[1..]) + [last];
      WordsThenToken(d, pieces[1..], last);
      var rest := Join(words[1..], " ");
      forall i | 0 <= i < |words[1..]| ensures IsToken(words[1..][i]) {
        if i < |pieces| - 1 {
          assert Fits(pieces[1..][i]);
          WordIsOneToken(pieces[1..][i]);
        } else {
          assert words[1..][i] == last;
        }
      }
      JoinedStart(words[1..]);
      LexFirst(words[0], ' ', rest);
      if |pieces| == 1 {
        assert words[1..] == [last] && rest == last;
        LexOne(last);
        LastGapStays(d, words[0], last, Lex(rest));
        assert Concat(pieces) == pieces[0] + Concat(pieces[1..]) && Concat([]) == "";
        assert Concat(pieces) == pieces[0];
        assert Concat(pieces[1..]) + "" + last == last;
      } else {
        assert Fits(pieces[1]) && words[1] == Word(pieces[1]);
        DecodeJoined(d, words[0], " ", Lex(rest));
        assert pieces[0] + (Concat(pieces[1..]) + " " + last) == pieces[0] + Concat(pieces[1..]) + " " + last;
      }
    }
  }

  lemma NothingDecodes(d: Decoder)
    ensures Decode(d, []) == ""
  {
  }

  lemma {:induction false} LastGapStays(d: Decoder, word: string, last: string, rest: seq<Lexeme>)
    requires d(word).Some? && d(last).None? && rest == [Token(last)]
    ensures Decode(d, [Token(word), Gap(" ")] + rest) == d(word).value + " " + last
  {
    var lexemes := [Token(word), Gap(" ")] + rest;
    assert lexemes[1..] == [Gap(" ")] + rest;
    DecodePlain(d, Gap(" "), rest);
    DecodePlain(d, Token(last), []);
    assert [Token(last)] + [] == [Token(last)];
  }

  lemma {:induction false} BracketedIsToken(address: string)
    requires IsAddress(address)
    ensures IsToken("<" + address + ">")
  {
    var local, domain := AddressParts(address);
    LocalChars(local);
    DomainChars(domain);
    AtomCharsArePlain();
    hide IsLocalPart, IsDomain, IsAtomChar, IsDomainChar, IsAddress;
    forall c <- "<" + address + ">" ensures '!' <= c <= '~' {
      if c in local {
        var k :| 0 <= k < |local| && local[k] == c;
      } else if c in domain {
        var k :| 0 <= k < |domain| && domain[k] == c;
      }
    }
  }

  lemma ShapeStarts(charset: string, how: char, text: string)
    ensures Shape(charset, how, text)[0] == '='
  {
  }

  lemma {:induction false} OnlyShapedStarts(token: string)
    requires token != "" && token[0] != '='
    ensures !IsShaped(token)
  {
    hide Shape, IsCharset, IsMethod, IsText;
    forall charset, how, text ensures token != Shape(charset, how, text) {
      ShapeStarts(charset, how, text);
    }
  }

  lemma {:induction false} SimpleIsAscii(name: string)
    requires Composer.IsSimpleName(name)
    ensures IsAscii(name)
  {
    forall c <- name ensures c as int < 0x80 {
      assert Composer.IsNameChar(c);
    }
  }

  function InAngles(address: string): (s: string)
    ensures s != "" && s[0] == '<'
  {
    "<" + address + ">"
  }

  function Tail(address: string): string {
    " " + InAngles(address)
  }

  lemma BracketedIs(lead: string, address: string)
    ensures Bracketed(lead, address) == lead + Tail(address)
  {
  }

  lemma {:induction false} TailIsOneLine(address: string)
    requires IsUsable(address)
    ensures OneLine(Tail(address)) && IsToken(InAngles(address)) && !IsShaped(InAngles(address))
  {
    UsableIsTrimmed(address);
    BracketedIsToken(address);
    OnlyShapedStarts(InAngles(address));
    hide IsUsable, IsShaped, InAngles, IsAddress;
    TokenIsOneLine(InAngles(address));
  }

  lemma TokenIsOneLine(token: string)
    requires IsToken(token)
    ensures OneLine(" " + token)
  {
  }

  lemma {:induction false} EncodedNameIs(name: string, address: string)
    requires name != "" && !IsAscii(name) && OneLine(name) && Trim(name) == name && IsUsable(address)
    ensures Composer.FormatAddress(Composer.Address(name, address)) == Bracketed(EncodeHeaderValue(name), address)
  {
    UsableIsTrimmed(address);
    if Composer.IsSimpleName(name) {
      SimpleIsAscii(name);
    }
    hide Trim, IsAscii, Composer.IsSimpleName, EncodeHeaderValue, IsUsable;
  }

  lemma {:induction false} CodeUnfolds(name: string)
    requires name != "" && !IsAscii(name) && OneLine(name) && Trim(name) == name
    ensures var code := EncodeHeaderValue(name);
            Foldable(code) && Unfolded(code) == Join(Words(Headers.Pieces("", name)), " ")
  {
    OneLineIsTrimmed(name);
    EncodedIsFoldable(name);
    WordsUnfold(name);
    hide Trim, Clean, IsAscii, Foldable, Word, Headers.Pieces, Unfolded, OneLine;
  }

  lemma {:induction false} TailUnfolds(code: string, address: string)
    requires Foldable(code) && IsUsable(address)
    ensures Unfolded(Bracketed(code, address)) == Unfolded(code) + Tail(address)
  {
    TailIsOneLine(address);
    BracketedIs(code, address);
    hide Foldable, IsUsable, Bracketed, Tail, InAngles, Unfolded, OneLine, IsShaped;
    UnfoldedAppend(code, Tail(address));
    UnfoldedOneLine(Tail(address));
  }

  lemma {:induction false} JoinTail(words: seq<string>, address: string)
    requires words != []
    ensures Join(words + [InAngles(address)], " ") == Join(words, " ") + Tail(address)
  {
    hide Join, InAngles;
    JoinSnoc(words, InAngles(address), " ");
  }

  function WordsOf(name: string): seq<string> {
    Words(Headers.Pieces("", name))
  }

  predicate IsEncodedName(name: string) {
    !IsAscii(name) && OneLine(name) && Trim(name) == name
  }

  /** What is written for a name beyond ASCII, once unfolded: its words, then the address. */
  lemma {:induction false} EncodedNameUnfolds(name: string, address: string)
    requires name != "" && IsEncodedName(name) && IsUsable(address)
    ensures var field := Unfolded(Composer.FormatAddress(Composer.Address(name, address)));
            && WordsOf(name) != []
            && field == Join(WordsOf(name), " ") + Tail(address)
            && field == Join(WordsOf(name) + [InAngles(address)], " ")
  {
    EncodedNameIs(name, address);
    CodeUnfolds(name);
    PiecesOf(name);
    assert WordsOf(name) != [];
    hide IsEncodedName, Foldable, WordsOf, IsUsable, Unfolded, Join, EncodeHeaderValue, Bracketed, InAngles, Tail,
         Composer.FormatAddress;
    TailUnfolds(EncodeHeaderValue(name), address);
    JoinTail(WordsOf(name), address);
  }

  lemma {:induction false} PiecesOf(name: string)
    requires name != ""
    ensures var pieces := Headers.Pieces("", name);
            && pieces != [] && Concat(pieces) == name
            && forall i :: 0 <= i < |pieces| ==> Fits(pieces[i])
  {
    hide Fits, Headers.Encoded;
    PiecesSplitTheValue("", name);
    NothingEncoded();
    PiecesFit("", name);
  }

  lemma {:induction false} WordsUnfold(name: string)
    requires name != ""
    ensures var words := Words(Headers.Pieces("", name)); Unfolded(Join(words, CRLF + " ")) == Join(words, " ")
  {
    PiecesOf(name);
    var pieces := Headers.Pieces("", name);
    hide Word, Headers.Pieces, Unfolded, Join;
    forall w <- Words(pieces) ensures OneLine(w) {
      var i :| 0 <= i < |pieces| && w == Word(pieces[i]);
      assert Fits(pieces[i]);
      WordIsOneToken(pieces[i]);
    }
    FoldedWordsUnfold(Words(pieces));
  }

  lemma {:induction false} WordsAreShown(d: Decoder, name: string, address: string)
    requires IsDecoder(d) && name != "" && IsUsable(address)
    ensures Join(WordsOf(name), " ") != ""
    ensures Decode(d, Lex(Join(WordsOf(name), " "))) == name
    ensures Decode(d, Lex(Join(WordsOf(name) + [InAngles(address)], " "))) == name + " " + InAngles(address)
  {
    PiecesOf(name);
    TailIsOneLine(address);
    hide IsUsable, IsShaped, Word, Headers.Pieces, Join, Decode, Lex, IsToken, IsDecoder, Fits, InAngles, Concat;
    NotShapedIsNotDecoded(d, InAngles(address));
    WordsThenToken(d, Headers.Pieces("", name), InAngles(address));
    WordsDecode(d, Headers.Pieces("", name));
    LeadIsSomething(Headers.Pieces("", name));
  }

  lemma CutOff(lead: string, tail: string)
    ensures var field := lead + tail;
            |field| - |tail| == |lead| && field[..|field| - |tail|] == lead && field[|field| - |tail|..] == tail
  {
  }

  /**
   * A name beyond ASCII is shown by every reader, in front of exactly the address that was given;
   * the part in front of the brackets alone decodes to the name.
   */
  lemma {:induction false} EncodedNameIsShown(d: Decoder, name: string, address: string)
    requires IsDecoder(d) && IsEncodedName(name) && IsUsable(address)
    ensures var field := Unfolded(Composer.FormatAddress(Composer.Address(name, address)));
            var tail := " " + ("<" + address + ">");
            && |field| > |tail| && field[|field| - |tail|..] == tail
            && Decode(d, Lex(field[..|field| - |tail|])) == name
            && Decode(d, Lex(field)) == name + tail
  {
    assert name != "";
    assert Tail(address) == " " + ("<" + address + ">");
    assert name + " " + InAngles(address) == name + Tail(address);
    hide IsEncodedName, IsUsable, WordsOf, Unfolded, Join, Decode, Lex, Composer.FormatAddress, IsDecoder, InAngles,
         Tail;
    EncodedNameUnfolds(name, address);
    WordsAreShown(d, name, address);
    CutOff(Join(WordsOf(name), " "), Tail(address));
  }

  lemma NotShapedIsNotDecoded(d: Decoder, token: string)
    requires IsDecoder(d) && !IsShaped(token)
    ensures d(token).None?
  {
  }

  lemma LeadIsSomething(pieces: seq<string>)
    requires pieces != []
    ensures Join(Words(pieces), " ") != ""
  {
  }

  // ---- A list ----

  /** What is read back as it was given, alone or in a list. */
  predicate IsReadable(a: Composer.Address) {
    && IsUsable(a.address)
    && (a.name == "" || IsSimpleTrimmedName(a.name)
        || (IsVerbatimName(a.name) && Unquoted(a.name) == a.name && IsClosed(a.name)))
  }

  lemma {:induction false} AddressIsClosed(address: string)
    requires IsUsable(address)
    ensures IsClosed(address) && IsClosed(InAngles(address))
  {
    UsableIsTrimmed(address);
    hide IsUsable;
    var local, domain := AddressParts(address);
    LocalAndDomainChars(local, domain);
    assert forall c <- address :: IsInert(c);
    hide IsAddress, IsLocalPart, IsDomain, IsClosed, IsPlain;
    PlainIsClosed(address);
    EnclosedIsClosed('<', address, '>');
    assert ['<'] + address + ['>'] == InAngles(address);
  }

  lemma {:induction false} TailIsClosed(address: string)
    requires IsUsable(address)
    ensures IsClosed(address) && IsClosed(Tail(address)) && IsClosed(" ")
  {
    AddressIsClosed(address);
    hide IsClosed, InAngles, IsUsable;
    PlainIsClosed(" ");
    ClosedAppend(" ", InAngles(address));
  }

  lemma {:induction false} SimpleIsClosed(name: string)
    requires Composer.IsSimpleName(name)
    ensures IsClosed(name) && IsClosed("\"" + name + "\"")
  {
    forall c <- name ensures !IsMark(c) && !IsSeparator(c) {
      assert Composer.IsNameChar(c);
    }
    hide IsClosed, Composer.IsSimpleName, IsSeparator;
    PlainIsClosed(name);
    EnclosedIsClosed('"', name, '"');
    assert ['"'] + name + ['"'] == "\"" + name + "\"";
  }

  lemma {:induction false} ReadableIs(a: Composer.Address)
    requires IsReadable(a)
    ensures var field := Composer.FormatAddress(a);
            && ParseRecipient(field) == Ok(Recipient(a.name, a.address))
            && (field == a.address || field == Bracketed(a.name, a.address)
                || (Composer.IsSimpleName(a.name) && field == Bracketed("\"" + a.name + "\"", a.address)))
  {
    assert a == Composer.Address(a.name, a.address);
    if a.name == "" {
      BareFieldReads(a.address);
    } else {
      AsciiNameReads(a.name, a.address);
      UsableIsTrimmed(a.address);
      hide ParseRecipient, Composer.FormatAddress, IsUsable, IsTypedName, Bracketed, Trim, Unquoted, IsClosed, IsPlain,
           IsAddress, LowercaseDomain;
      if IsSimpleTrimmedName(a.name) {
        FormatIs(a);
      } else {
        VerbatimIs(a.name, a.address);
      }
    }
  }

  lemma {:induction false} ReadableIsClosed(a: Composer.Address)
    requires IsReadable(a)
    ensures IsClosed(Composer.FormatAddress(a)) && IsClosed(" " + Composer.FormatAddress(a))
  {
    ReadableIs(a);
    TailIsClosed(a.address);
    if Composer.IsSimpleName(a.name) {
      SimpleIsClosed(a.name);
    }
    var name, quoted := a.name, "\"" + a.name + "\"";
    BracketedIs(name, a.address);
    BracketedIs(quoted, a.address);
    hide IsClosed, ParseRecipient, Composer.FormatAddress, IsUsable, IsTypedName, Bracketed, Trim, Unquoted, Tail,
         Composer.IsSimpleName;
    if IsClosed(name) {
      ClosedAppend(name, Tail(a.address));
    }
    if IsClosed(quoted) {
      ClosedAppend(quoted, Tail(a.address));
    }
    ClosedAppend(" ", Composer.FormatAddress(a));
  }

  /** `", "` puts a comma after one address and a space before the next. */
  function Spread(fields: seq<string>): (pieces: seq<string>)
    ensures |pieces| == |fields|
  {
    seq(|fields|, i requires 0 <= i < |fields| => if i == 0 then fields[0] else " " + fields[i])
  }

  function Commas(n: nat): (s: string)
    ensures |s| == n && forall i :: 0 <= i < n ==> s[i] == ','
  {
    seq(n, i => ',')
  }

  lemma CommaSpace(s: string, field: string)
    ensures s + ", " + field == s + [','] + (" " + field)
  {
  }

  lemma SpreadSnoc(fields: seq<string>, field: string)
    requires fields != []
    ensures Spread(fields + [field]) == Spread(fields) + [" " + field]
  {
  }

  lemma {:induction false} JoinedIsInterleaved(fields: seq<string>)
    requires fields != []
    ensures Join(fields, ", ") == Interleaved(Spread(fields), Commas(|fields| - 1))
  {
    var n := |fields| - 1;
    var before, last := fields[..n], fields[n];
    if n == 0 {
      OnlyPiece(fields[0]);
      assert Spread(fields) == [fields[0]] && fields == [fields[0]] && Commas(0) == "";
    } else {
      assert Commas(n) == Commas(n - 1) + [','];
      hide Join, Interleaved, Spread, Commas;
      JoinedIsInterleaved(before);
      JoinSnoc(before, last, ", ");
      SpreadSnoc(before, last);
      InterleavedSnoc(Spread(before), Commas(n - 1), " " + last);
      CommaSpace(Join(before, ", "), last);
      assert fields == before + [last];
    }
  }

  lemma {:induction false} InterleavedSnoc(pieces: seq<string>, separators: string, last: string)
    requires |pieces| == |separators| + 1
    ensures Interleaved(pieces + [last], separators + [','])
         == Interleaved(pieces, separators) + [','] + last
  {
    assert (pieces + [last])[..|pieces|] == pieces && (separators + [','])[..|separators|] == separators;
  }

  // ---- Names in any script ----

  predicate IsClear(a: Composer.Address) {
    IsReadable(a) || (IsUsable(a.address) && IsEncodedName(a.name))
  }

  /** An address as the header has it, unfolded. */
  function FieldOf(a: Composer.Address): string {
    Unfolded(Composer.FormatAddress(a))
  }

  /** A reader has this address: as it was given, or shown with its name by every decoder. */
  ghost predicate Arrives(piece: string, a: Composer.Address) {
    if IsAscii(a.name) then ParseRecipient(piece) == Ok(Recipient(a.name, a.address))
    else forall d: Decoder | IsDecoder(d) :: Decode(d, Lex(Trim(piece))) == a.name + " <" + a.address + ">"
  }

  lemma {:induction false} SpacedReads(field: string)
    ensures ParseRecipient(" " + field) == ParseRecipient(field) && Trim(" " + field) == Trim(field)
  {
    OneSpace();
    hide ParseRecipient, IsAllSpace, Trim;
    OuterSpaceIsIgnored(" ", field, "");
    TrimIgnoresOuterSpace(" ", field, "");
    assert " " + field + "" == " " + field;
  }

  lemma {:induction false} SpacedArrives(field: string, a: Composer.Address)
    ensures Arrives(" " + field, a) <==> Arrives(field, a)
  {
    SpacedReads(field);
    hide ParseRecipient, Trim, IsDecoder, Decode, Lex;
  }

  lemma {:induction false} WordIsPlain(part: string)
    ensures forall c <- Word(part) :: !IsMark(c) && !IsSeparator(c)
  {
    Base64Alphabet(Utf8(part));
    PlainWordChars();
    forall c <- Word(part) ensures !IsMark(c) && !IsSeparator(c) {
      assert c in WORD_START || IsBase64Char(c) || c in WORD_END;
    }
  }

  lemma PlainWordChars()
    ensures forall c :: IsBase64Char(c) ==> !IsMark(c) && !IsSeparator(c)
    ensures forall c <- WORD_START :: !IsMark(c) && !IsSeparator(c)
    ensures forall c <- WORD_END :: !IsMark(c) && !IsSeparator(c)
  {
  }

  lemma {:induction false} WordsAreClosed(pieces: seq<string>)
    ensures IsClosed(Join(Words(pieces), " "))
  {
    hide Word, IsClosed;
    if pieces == [] {
      PlainIsClosed("");
    } else {
      var words := Words(pieces);
      WordIsPlain(pieces[0]);
      PlainIsClosed(words[0]);
      assert words[1..] == Words(pieces[1..]);
      WordsAreClosed(pieces[1..]);
      if |pieces| > 1 {
        PlainIsClosed(" ");
        ClosedAppend(words[0], " ");
        ClosedAppend(words[0] + " ", Join(words[1..], " "));
      }
    }
  }

  lemma {:induction false} EncodedIsClear(name: string, address: string)
    requires name != "" && IsEncodedName(name) && IsUsable(address)
    ensures var a := Composer.Address(name, address);
            Foldable(Composer.FormatAddress(a)) && IsClosed(FieldOf(a)) && Trim(FieldOf(a)) == FieldOf(a)
  {
    EncodedNameIs(name, address);
    CodeUnfolds(name);
    EncodedNameUnfolds(name, address);
    AddressIsOneLine(address);
    TailIsClosed(address);
    EndsInBrackets(WordsOf(name), address);
    hide IsEncodedName, IsUsable, Foldable, IsClosed, EncodeHeaderValue, Composer.FormatAddress, Unfolded, Join, Tail,
         Bracketed, OneLine, Trim;
    BracketedIsFoldable(EncodeHeaderValue(name), address);
    assert Bracketed(EncodeHeaderValue(name), address) == EncodeHeaderValue(name) + " <" + address + ">" by {
      BracketsSpelt(EncodeHeaderValue(name), address);
    }
    WordsAreClosed(Headers.Pieces("", name));
    ClosedAppend(Join(WordsOf(name), " "), Tail(address));
  }

  lemma BracketsSpelt(lead: string, address: string)
    ensures Bracketed(lead, address) == lead + " <" + address + ">"
  {
  }

  lemma {:induction false} EndsInBrackets(words: seq<string>, address: string)
    requires words != [] && exists p :: words[0] == Word(p)
    ensures var field := Join(words, " ") + Tail(address); Trim(field) == field
  {
    var field := Join(words, " ") + Tail(address);
    hide Headers.Encoded, Trim;
    assert field[0] == '=' && field[|field| - 1] == '>';
    assert !IsSpace('=') && !IsSpace('>');
    TrimOfTrimmed(field);
  }

  lemma TailSpelt(name: string, address: string)
    ensures name + (" " + ("<" + address + ">")) == name + " <" + address + ">"
  {
  }

  lemma {:induction false} EncodedArrives(name: string, address: string)
    requires name != "" && IsEncodedName(name) && IsUsable(address)
    ensures Arrives(FieldOf(Composer.Address(name, address)), Composer.Address(name, address))
  {
    EncodedIsClear(name, address);
    assert !IsAscii(name);
    hide IsEncodedName, IsUsable, IsDecoder, Decode, Lex, Trim, IsAscii, Unfolded, Composer.FormatAddress, Foldable,
         IsClosed;
    var field := FieldOf(Composer.Address(name, address));
    forall d: Decoder | IsDecoder(d) ensures Decode(d, Lex(Trim(field))) == name + " <" + address + ">" {
      EncodedNameIsShown(d, name, address);
      TailSpelt(name, address);
    }
  }

  lemma {:induction false} ReadableIsAscii(a: Composer.Address)
    requires IsReadable(a)
    ensures IsAscii(a.name)
  {
    if Composer.IsSimpleName(a.name) {
      SimpleIsAscii(a.name);
    }
  }

  lemma {:induction false} ReadableArrives(a: Composer.Address)
    requires IsReadable(a)
    ensures Foldable(Composer.FormatAddress(a)) && FieldOf(a) == Composer.FormatAddress(a) && Arrives(FieldOf(a), a)
  {
    hide Composer.FormatAddress, ParseRecipient, Foldable, IsReadable, OneLine, Unfolded, Trim, Decode, Lex, IsDecoder;
    ReadableIsAscii(a);
    ReadableIs(a);
    ReadableIsOneLine(a);
    OneLineIsFoldable(Composer.FormatAddress(a));
  }

  lemma {:induction false} SpaceKeepsClosed(s: string)
    requires IsClosed(s)
    ensures IsClosed(" " + s)
  {
    hide IsClosed;
    PlainIsClosed(" ");
    ClosedAppend(" ", s);
  }

  lemma {:induction false} EncodedAddressArrives(a: Composer.Address)
    requires IsUsable(a.address) && IsEncodedName(a.name)
    ensures Foldable(Composer.FormatAddress(a)) && Arrives(FieldOf(a), a) && IsClosed(FieldOf(a))
  {
    assert IsEncodedName(a.name) ==> a.name != "";
    hide Composer.FormatAddress, FieldOf, Arrives, IsUsable, IsEncodedName, IsClosed, Foldable, Trim;
    EncodedIsClear(a.name, a.address);
    EncodedArrives(a.name, a.address);
    assert a == Composer.Address(a.name, a.address);
  }

  lemma {:induction false} ClearArrives(a: Composer.Address)
    requires IsClear(a)
    ensures Foldable(Composer.FormatAddress(a)) && Arrives(FieldOf(a), a)
    ensures IsClosed(FieldOf(a)) && IsClosed(" " + FieldOf(a))
  {
    hide Composer.FormatAddress, FieldOf, Arrives, IsReadable, IsUsable, IsEncodedName, IsClosed, Foldable;
    if IsReadable(a) {
      ReadableArrives(a);
      ReadableIsClosed(a);
    } else {
      EncodedAddressArrives(a);
    }
    SpaceKeepsClosed(FieldOf(a));
  }

  function FieldsOf(addresses: seq<Composer.Address>): (fields: seq<string>)
    ensures |fields| == |addresses| && forall i :: 0 <= i < |fields| ==> fields[i] == FieldOf(addresses[i])
  {
    seq(|addresses|, i requires 0 <= i < |addresses| => FieldOf(addresses[i]))
  }

  lemma {:induction false} ListUnfolds(addresses: seq<Composer.Address>)
    requires forall a <- addresses :: IsClear(a)
    ensures Foldable(Composer.FormatAddressList(addresses))
    ensures Unfolded(Composer.FormatAddressList(addresses)) == Join(FieldsOf(addresses), ", ")
  {
    var list := Composer.FormatAddressList(addresses);
    hide Composer.FormatAddress, IsClear, Foldable, Unfolded, OneLine, Arrives, IsClosed;
    if addresses == [] {
      assert OneLine("") && OneLine(", ") by { PlainSeparators(); }
      OneLineIsFoldable("");
    } else {
      var first, rest := Composer.FormatAddress(addresses[0]), Composer.FormatAddressList(addresses[1..]);
      ClearArrives(addresses[0]);
      ListUnfolds(addresses[1..]);
      assert Composer.FormatAddresses(addresses)[1..] == Composer.FormatAddresses(addresses[1..]);
      assert FieldsOf(addresses)[1..] == FieldsOf(addresses[1..]);
      if |addresses| > 1 {
        assert OneLine(", ") by { PlainSeparators(); }
        OneLineIsFoldable(", ");
        UnfoldedOneLine(", ");
        FoldableAppend(first, ", ");
        UnfoldedAppend(first, ", ");
        FoldableAppend(first + ", ", rest);
        UnfoldedAppend(first + ", ", rest);
      } else {
        assert list == first;
      }
    }
  }

  lemma PlainSeparators()
    ensures OneLine("") && OneLine(", ")
  {
  }

  /** A list reads as these addresses: it comes apart into one piece for each, which arrives. */
  ghost predicate ReadsAs(list: string, addresses: seq<Composer.Address>) {
    var pieces := Recipients.Pieces(list);
    |pieces| == |addresses| && forall i :: 0 <= i < |pieces| ==> Arrives(pieces[i], addresses[i])
  }

  /** Splitting a written list, once unfolded, gives exactly the addresses, in order and in any script. */
  lemma {:induction false} AddressListReads(addresses: seq<Composer.Address>)
    requires addresses != [] && forall a <- addresses :: IsClear(a)
    ensures ReadsAs(Unfolded(Composer.FormatAddressList(addresses)), addresses)
  {
    hide FieldOf, IsClear, IsClosed, Arrives, Recipients.Pieces, Interleaved, Join, Commas, Unfolded, Foldable,
         Composer.FormatAddressList;
    ListUnfolds(addresses);
    var fields := FieldsOf(addresses);
    var pieces := Spread(fields);
    forall i | 0 <= i < |pieces| ensures IsClosed(pieces[i]) && Arrives(pieces[i], addresses[i]) {
      assert addresses[i] in addresses;
      ClearArrives(addresses[i]);
      SpacedArrives(fields[i], addresses[i]);
    }
    JoinedIsInterleaved(fields);
    CommasSeparate(|fields| - 1);
    SplitUndoesJoin(pieces, Commas(|fields| - 1));
  }

  lemma CommasSeparate(n: nat)
    ensures forall i :: 0 <= i < n ==> IsSeparator(Commas(n)[i])
  {
  }

  lemma {:induction false} ReadableIsOneLine(a: Composer.Address)
    requires IsReadable(a)
    ensures OneLine(Composer.FormatAddress(a))
  {
    ReadableIs(a);
    AddressIsOneLine(a.address);
    BracketedIs(a.name, a.address);
    BracketedIs("\"" + a.name + "\"", a.address);
    if Composer.IsSimpleName(a.name) {
      SimpleIsOneLine(a.name);
    } else if a.name != "" {
      TypedNameIsOneLine(a.name);
    }
    hide IsClosed, ParseRecipient, Composer.FormatAddress, IsUsable, IsTypedName, Bracketed, Trim, Unquoted, Tail,
         Composer.IsSimpleName, OneLine, IsReadable, Clean;
    if OneLine(a.name) {
      OneLineAppend(a.name, Tail(a.address));
    }
    if OneLine("\"" + a.name + "\"") {
      OneLineAppend("\"" + a.name + "\"", Tail(a.address));
    }
  }

  lemma {:induction false} AddressIsOneLine(address: string)
    requires IsUsable(address)
    ensures OneLine(address) && OneLine(Tail(address))
  {
    TailIsOneLine(address);
    UsableIsTrimmed(address);
    hide IsUsable, IsAddress, Tail;
  }

  lemma {:induction false} SimpleIsOneLine(name: string)
    requires Composer.IsSimpleName(name)
    ensures OneLine(name) && OneLine("\"" + name + "\"")
  {
    assert !Composer.IsNameChar('\r') && !Composer.IsNameChar('\n');
    hide Composer.IsNameChar;
  }

  // ---- Where a name takes its address apart ----

  /** No separator of the text cuts. */
  predicate IsUncut(text: string) {
    forall i :: 0 <= i < |text| ==> !Cuts(AfterAll(START, text[..i]), text[i])
  }

  lemma {:induction false} UncutExactly(text: string)
    ensures |Recipients.Pieces(text)| == 1 <==> IsUncut(text)
    decreases |text|
  {
    hide Cuts, AfterAll;
    if text != "" {
      var n := |text| - 1;
      UncutExactly(text[..n]);
      assert forall i :: 0 <= i < n ==> text[..n][..i] == text[..i] && text[..n][i] == text[i];
      assert text[n] == text[|text| - 1];
    }
  }

  lemma {:induction false} OnlyTheLeadCuts(lead: string, tail: string)
    requires forall c <- tail :: !IsSeparator(c)
    ensures IsUncut(lead + tail) <==> IsUncut(lead)
  {
    var text := lead + tail;
    hide AfterAll;
    assert forall i :: 0 <= i < |lead| ==> text[..i] == lead[..i] && text[i] == lead[i];
    forall i | |lead| <= i < |text| ensures !Cuts(AfterAll(START, text[..i]), text[i]) {
      assert text[i] == tail[i - |lead|] && tail[i - |lead|] in tail;
    }
  }

  lemma {:induction false} AddressHasNoSeparator(address: string)
    requires IsUsable(address)
    ensures forall c <- address :: !IsSeparator(c)
  {
    UsableIsTrimmed(address);
    hide IsUsable;
    var local, domain := AddressParts(address);
    LocalAndDomainChars(local, domain);
    hide IsAddress, IsLocalPart, IsDomain, IsPlain, IsMark, IsControl, IsSeparator;
    assert forall c <- address :: IsInert(c);
  }

  lemma TailHasNoSeparator(address: string)
    requires IsUsable(address)
    ensures forall c <- Tail(address) :: !IsSeparator(c)
  {
    AddressHasNoSeparator(address);
    hide IsUsable;
  }

  /**
   * A name in ASCII that is not simple is written without quotes: its address stays one recipient
   * exactly if every separator in the name is inside quotes or brackets of its own.
   */
  lemma {:induction false} OneRecipientExactly(name: string, address: string)
    requires IsVerbatimName(name) && IsUsable(address)
    ensures |Recipients.Pieces(Composer.FormatAddress(Composer.Address(name, address)))| == 1 <==> IsUncut(name)
  {
    VerbatimIs(name, address);
    BracketedIs(name, address);
    TailHasNoSeparator(address);
    hide IsUncut, Composer.FormatAddress, Bracketed, Tail, IsVerbatimName, IsUsable, Recipients.Pieces;
    UncutExactly(name + Tail(address));
    OnlyTheLeadCuts(name, Tail(address));
  }
}
