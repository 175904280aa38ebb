/** What the parser makes of each piece the composer writes: headers, text parts, boundary lines. */
module MimeParts {
  import opened Basics
  import opened Encoding
  import opened Strings
  import opened Text
  import opened Headers
  import opened MimeParser
  import opened Composer

  // ---- Text that may stand in a header ----

  lemma {:induction false} OneLineIsFoldable(s: string)
    requires OneLine(s)
    ensures Foldable(s) && Unfolded(s) == s
  {
    OneLineIsItself(s);
    UnfoldedOneLine(s);
  }

  function Glued(a: seq<string>, b: seq<string>): seq<string>
    requires a != [] && b != []
  {
    a[..|a| - 1] + [a[|a| - 1] + b[0]] + b[1..]
  }

  lemma {:induction false} GluedHead(c: char, a: seq<string>, b: seq<string>)
    requires a != [] && b != []
    ensures Glued([[c] + a[0]] + a[1..], b) == [[c] + Glued(a, b)[0]] + Glued(a, b)[1..]
  {
    assert |a| == 1 ==> [c] + a[0] + b[0] == [c] + (a[0] + b[0]);
  }

  lemma {:induction false} AfterBreak(s: string)
    requires |s| >= 2 && s[0] == '\r' && s[1] == '\n'
    requires forall l <- Lines(s) :: OneLine(l)
    ensures forall l <- Lines(s[2..]) :: OneLine(l)
  {
    assert forall l <- Lines(s[2..]) :: l in Lines(s);
  }

  lemma {:induction false} LinesGlue(s: string, t: string)
    requires forall l <- Lines(s) :: OneLine(l)
    ensures Lines(s + t) == Glued(Lines(s), Lines(t))
  {
    hide OneLine;
    if s == "" {
      assert s + t == t;
      assert "" + Lines(t)[0] == Lines(t)[0];
    } else if |s| >= 2 && s[0] == '\r' && s[1] == '\n' {
      assert (s + t)[2..] == s[2..] + t;
      AfterBreak(s);
      LinesGlue(s[2..], t);
    } else {
      TailIsOneLine(s);
      assert (s + t)[1..] == s[1..] + t;
      LinesGlue(s[1..], t);
      GluedHead(s[0], Lines(s[1..]), Lines(t));
    }
  }

  lemma {:induction false} TailIsOneLine(s: string)
    requires s != "" && !(|s| >= 2 && s[0] == '\r' && s[1] == '\n')
    requires forall l <- Lines(s) :: OneLine(l)
    ensures forall l <- Lines(s[1..]) :: OneLine(l)
    ensures s[0] != '\r'
  {
    var rest := Lines(s[1..]);
    assert Lines(s)[0] == [s[0]] + rest[0] && Lines(s)[0] in Lines(s);
    assert s[0] in Lines(s)[0];
    forall l <- rest ensures OneLine(l) {
      if l == rest[0] {
        assert forall c <- l :: c in Lines(s)[0];
      } else {
        assert l in Lines(s);
      }
    }
  }

  lemma {:induction false} FoldableLines(s: string)
    requires Foldable(s)
    ensures forall l <- Lines(s) :: OneLine(l)
  {
    forall l <- Lines(s) ensures OneLine(l) {
      assert l == Lines(s)[0] || l in Lines(s)[1..];
    }
  }

  predicate AreFolded(lines: seq<string>) {
    lines != [] && OneLine(lines[0]) && forall i :: 1 <= i < |lines| ==> IsContinuation(lines[i])
  }

  lemma {:induction false} GluedIsFolded(a: seq<string>, b: seq<string>)
    requires AreFolded(a) && AreFolded(b)
    ensures AreFolded(Glued(a, b))
  {
    var g := Glued(a, b);
    forall i | 1 <= i < |g| ensures IsContinuation(g[i]) {
      if i < |a| {
        assert IsContinuation(a[i]);
      } else {
        assert g[i] == b[i - |a| + 1];
      }
    }
  }

  lemma {:induction false} FoldableMeans(s: string)
    ensures Foldable(s) <==> AreFolded(Lines(s))
  {
    var lines := Lines(s);
    hide Lines;
    if Foldable(s) {
      forall i | 1 <= i < |lines| ensures IsContinuation(lines[i]) {
        assert lines[i] in lines[1..];
      }
    }
  }

  lemma {:induction false} FoldableAppend(s: string, t: string)
    requires Foldable(s) && Foldable(t)
    ensures Foldable(s + t)
  {
    hide Foldable, AreFolded, Glued, Lines;
    FoldableLines(s);
    LinesGlue(s, t);
    FoldableMeans(s);
    FoldableMeans(t);
    FoldableMeans(s + t);
    GluedIsFolded(Lines(s), Lines(t));
  }

  lemma {:induction false} FoldedWordsAreFoldable(words: seq<string>)
    requires forall w <- words :: IsToken(w)
    ensures Foldable(Join(words, CRLF + " "))
    ensures words != [] ==> Lines(Join(words, CRLF + " "))[0] == words[0]
  {
    if words == [] {
    } else if |words| == 1 {
      assert IsToken(words[0]);
      OneLineIsItself(words[0]);
    } else {
      assert IsToken(words[0]) && IsToken(words[1..][0]);
      var rest := Join(words[1..], CRLF + " ");
      assert words[0] + (CRLF + " ") + rest == words[0] + CRLF + (" " + rest);
      FoldedWordsAreFoldable(words[1..]);
      OneLineIsItself(words[0]);
      LinesAppend(words[0], " " + rest);
      LinesPrefix(" ", rest);
    }
  }

  lemma {:induction false} EncodedIsFoldable(value: string)
    ensures Foldable(EncodeHeaderValue(value))
  {
    var cleaned := Clean(value);
    if IsAscii(cleaned) {
      CleanIsOneLine(value);
      OneLineIsFoldable(cleaned);
    } else {
      hide Foldable, Clean;
      var pieces := Pieces("", cleaned);
      PiecesFit("", cleaned);
      forall p <- pieces ensures IsToken(Word(p)) {
        assert Fits(p);
        WordIsOneToken(p);
      }
      FoldedWordsAreFoldable(Words(pieces));
    }
  }

  lemma {:induction false} OneLineAppend(s: string, t: string)
    requires OneLine(s) && OneLine(t)
    ensures OneLine(s + t)
  {
  }

  /** `<address>` after something that may stand in a header. */
  lemma {:induction false} BracketedIsFoldable(lead: string, email: string)
    requires Foldable(lead) && OneLine(email)
    ensures Foldable(lead + " <" + email + ">")
  {
    hide Foldable, OneLine;
    assert OneLine(" <") && OneLine(">") by { OneLineOfBrackets(); }
    OneLineAppend(" <", email);
    OneLineAppend(" <" + email, ">");
    OneLineIsFoldable(" <" + email + ">");
    FoldableAppend(lead, " <" + email + ">");
    assert lead + (" <" + email + ">") == lead + " <" + email + ">";
  }

  lemma {:induction false} OneLineOfBrackets()
    ensures OneLine(" <") && OneLine(">") && OneLine("\"")
  {
  }

  lemma {:induction false} AddressIsFoldable(a: Address)
    requires IsSafeAddress(a)
    ensures Foldable(FormatAddress(a))
  {
    var email, name := Trim(a.address), Trim(a.name);
    hide Foldable, Trim, IsSimpleName, EncodeHeaderValue, OneLine;
    OneLineOfBrackets();
    if a.name == "" {
      OneLineIsFoldable(email);
    } else if IsSimpleName(name) {
      OneLineIsFoldable(name);
      BracketedIsFoldable(name, email);
      OneLineAppend("\"", name);
      OneLineAppend("\"" + name, "\"");
      OneLineIsFoldable("\"" + name + "\"");
      BracketedIsFoldable("\"" + name + "\"", email);
      assert "\"" + name + "\" <" + email + ">" == "\"" + name + "\"" + " <" + email + ">";
    } else {
      EncodedIsFoldable(name);
      BracketedIsFoldable(EncodeHeaderValue(name), email);
    }
  }

  lemma {:induction false} AddressListIsFoldable(addresses: seq<Address>)
    requires forall a <- addresses :: IsSafeAddress(a)
    ensures Foldable(FormatAddressList(addresses))
  {
    hide Foldable, FormatAddress, IsSafeAddress;
    if addresses == [] {
      OneLineIsFoldable("");
    } else {
      AddressIsFoldable(addresses[0]);
      AddressListIsFoldable(addresses[1..]);
      var first, rest := FormatAddress(addresses[0]), FormatAddressList(addresses[1..]);
      if |addresses| > 1 {
        OneLineIsFoldable(", ");
        FoldableAppend(first, ", ");
        FoldableAppend(first + ", ", rest);
        assert FormatAddresses(addresses)[1..] == FormatAddresses(addresses[1..]);
      } else {
        assert FormatAddresses(addresses) == [first];
      }
    }
  }

  // ---- Headers ----

  lemma {:induction false} FieldNameIsOneLine(name: string)
    requires IsFieldName(name)
    ensures OneLine(name + ": ")
  {
  }

  lemma {:induction false} LineIsHeader(name: string, value: string)
    requires IsFieldName(name) && Foldable(value)
    ensures IsHeader(Line(name, value), Field(name, Unfolded(value)))
  {
    FieldNameIsOneLine(name);
    var prefix := name + ": ";
    LinesPrefix(prefix, value);
    UnfoldedPrefix(prefix, value);
  }

  lemma {:induction false} PlainLineIsHeader(name: string, value: string)
    requires IsFieldName(name) && OneLine(value)
    ensures IsHeader(Line(name, value), Field(name, value))
  {
    hide Foldable, IsHeader;
    OneLineIsFoldable(value);
    LineIsHeader(name, value);
  }

  lemma {:induction false} ReferencesIsHeader(ids: seq<string>)
    requires ids != [] && forall id <- ids :: IsId(id)
    ensures IsHeader(Folded("References", Join(ids, " ")), Field("References", Join(ids, " ")))
  {
    hide Lines, Join, Folded;
    FoldingUnfolds("References", ids);
    assert IsId("References") && IsFieldName("References");
    FoldedFirstLine(ids);
  }

  lemma {:induction false} FoldedFirstLine(ids: seq<string>)
    requires ids != [] && forall id <- ids :: IsId(id)
    ensures OneLine(Lines(Folded("References", Join(ids, " ")))[0])
  {
    hide Lines, Join, Folded, FoldLines, Width;
    assert IsId("References");
    if Width(Prefix("References")) + Width(Join(ids, " ")) <= LINE_LIMIT {
      FoldedOneLine("References", ids);
      forall id <- ids ensures OneLine(id) {
        IdIsOneLine(id);
      }
      JoinOneLine(ids);
    } else {
      FoldedManyLines("References", ids);
      FoldedLines("References", ids);
    }
  }

  lemma {:induction false} HeadersAppend(a: seq<string>, x: seq<Field>, b: seq<string>, y: seq<Field>)
    requires AreHeaders(a, x) && AreHeaders(b, y)
    ensures AreHeaders(a + b, x + y)
  {
  }

  /** The fields a reader sees before the ones about the content. */
  function EnvelopeFields(input: Input): seq<Field> {
    [Field("From", Unfolded(FormatAddress(input.from))), Field("To", Unfolded(FormatAddressList(input.to)))]
    + (if input.cc == [] then [] else [Field("Cc", Unfolded(FormatAddressList(input.cc)))])
    + (if input.bcc == [] then [] else [Field("Bcc", Unfolded(FormatAddressList(input.bcc)))])
    + [Field("Subject", Unfolded(EncodeHeaderValue(input.subject))), Field("Date", input.date),
       Field("Message-ID", input.messageId)]
    + (if input.inReplyTo == "" then [] else [Field("In-Reply-To", input.inReplyTo)])
    + (if input.references == [] then [] else [Field("References", Join(input.references, " "))])
    + [Field("MIME-Version", "1.0")]
  }

  /** What the callers of the composer see to: generated values hold no line break, ids no white space. */
  predicate IsWellFormed(input: Input, tokens: Tokens) {
    && OneLine(input.date) && OneLine(input.messageId) && OneLine(input.inReplyTo)
    && (forall id <- input.references :: IsId(id))
    && OneLine(tokens.first) && OneLine(tokens.second)
  }

  lemma {:induction false} AddressNamesAreFieldNames()
    ensures IsFieldName("From") && IsFieldName("To") && IsFieldName("Cc") && IsFieldName("Bcc")
    ensures IsFieldName("Subject") && IsFieldName("Date") && IsFieldName("Message-ID")
  {
  }

  lemma {:induction false} OtherNamesAreFieldNames()
    ensures IsFieldName("In-Reply-To") && IsFieldName("MIME-Version") && IsFieldName("Content-Type")
    ensures IsFieldName("Content-Transfer-Encoding") && IsFieldName("Content-Disposition") && IsFieldName("Content-ID")
  {
  }

  lemma {:induction false} AddressHeader(name: string, addresses: seq<Address>)
    requires IsFieldName(name) && forall a <- addresses :: IsSafeAddress(a)
    ensures IsHeader(Line(name, FormatAddressList(addresses)), Field(name, Unfolded(FormatAddressList(addresses))))
  {
    AddressListIsFoldable(addresses);
    LineIsHeader(name, FormatAddressList(addresses));
  }

  lemma {:induction false} EnvelopeIsHeaders(input: Input, tokens: Tokens)
    requires IsWellFormed(input, tokens) && AddressesAreSafe(input)
    ensures AreHeaders(Envelope(input), EnvelopeFields(input))
  {
    hide Line, FormatAddress, FormatAddressList, EncodeHeaderValue, Folded, Join, IsHeader, IsSafeAddress, IsFieldName,
         Unfolded, OneLine, IsId;
    AddressNamesAreFieldNames();
    OtherNamesAreFieldNames();
    AddressIsFoldable(input.from);
    LineIsHeader("From", FormatAddress(input.from));
    AddressHeader("To", input.to);
    AddressHeader("Cc", input.cc);
    AddressHeader("Bcc", input.bcc);
    EncodedIsFoldable(input.subject);
    LineIsHeader("Subject", EncodeHeaderValue(input.subject));
    PlainLineIsHeader("Date", input.date);
    PlainLineIsHeader("Message-ID", input.messageId);
    PlainLineIsHeader("In-Reply-To", input.inReplyTo);
    if input.references != [] {
      ReferencesIsHeader(input.references);
    }
    assert OneLine("1.0") by { VersionIsOneLine(); }
    PlainLineIsHeader("MIME-Version", "1.0");
  }

  lemma {:induction false} VersionIsOneLine()
    ensures OneLine("1.0") && OneLine("base64")
  {
  }

  // ---- Fields the parser looks up ----

  lemma {:induction false} LookupSkips(a: seq<Field>, b: seq<Field>, name: string)
    requires forall f <- a :: Lower(f.name) != name
    ensures Lookup(a + b, name) == Lookup(b, name)
  {
    if a == [] {
      assert a + b == b;
    } else {
      assert (a + b)[1..] == a[1..] + b;
      LookupSkips(a[1..], b, name);
    }
  }

  predicate IsEnvelopeName(name: string) {
    || name == "From" || name == "To" || name == "Cc" || name == "Bcc" || name == "Subject" || name == "Date"
    || name == "Message-ID" || name == "In-Reply-To" || name == "References" || name == "MIME-Version"
  }

  /** The length or the first letter differs. */
  lemma {:induction false} EnvelopeNameIsNotContent(name: string)
    requires IsEnvelopeName(name)
    ensures Lower(name) != "content-type" && Lower(name) != "content-transfer-encoding"
  {
    assert |Lower(name)| == |name| && Lower(name)[0] == LowerChar(name[0]);
  }

  predicate AreEnvelope(fields: seq<Field>) {
    forall i :: 0 <= i < |fields| ==> IsEnvelopeName(fields[i].name)
  }

  lemma {:induction false} EnvelopeAppend(a: seq<Field>, b: seq<Field>)
    requires AreEnvelope(a) && AreEnvelope(b)
    ensures AreEnvelope(a + b)
  {
  }

  lemma {:induction false} OptionalIsEnvelope(absent: bool, field: Field)
    requires IsEnvelopeName(field.name)
    ensures AreEnvelope(if absent then [] else [field])
  {
  }

  lemma {:induction false} EnvelopeNames(input: Input)
    ensures AreEnvelope(EnvelopeFields(input))
  {
    hide AreEnvelope, Unfolded, FormatAddress, FormatAddressList, EncodeHeaderValue, Join;
    var a := [Field("From", Unfolded(FormatAddress(input.from))), Field("To", Unfolded(FormatAddressList(input.to)))];
    var b := if input.cc == [] then [] else [Field("Cc", Unfolded(FormatAddressList(input.cc)))];
    var c := if input.bcc == [] then [] else [Field("Bcc", Unfolded(FormatAddressList(input.bcc)))];
    var d := [Field("Subject", Unfolded(EncodeHeaderValue(input.subject))), Field("Date", input.date),
              Field("Message-ID", input.messageId)];
    var e := if input.inReplyTo == "" then [] else [Field("In-Reply-To", input.inReplyTo)];
    var f := if input.references == [] then [] else [Field("References", Join(input.references, " "))];
    var g := [Field("MIME-Version", "1.0")];
    FixedFieldsAreEnvelope(input);
    OptionalIsEnvelope(input.cc == [], Field("Cc", Unfolded(FormatAddressList(input.cc))));
    OptionalIsEnvelope(input.bcc == [], Field("Bcc", Unfolded(FormatAddressList(input.bcc))));
    OptionalIsEnvelope(input.inReplyTo == "", Field("In-Reply-To", input.inReplyTo));
    OptionalIsEnvelope(input.references == [], Field("References", Join(input.references, " ")));
    hide IsEnvelopeName;
    EnvelopeAppend(a, b);
    EnvelopeAppend(a + b, c);
    EnvelopeAppend(a + b + c, d);
    EnvelopeAppend(a + b + c + d, e);
    EnvelopeAppend(a + b + c + d + e, f);
    EnvelopeAppend(a + b + c + d + e + f, g);
  }

  lemma {:induction false} FixedFieldsAreEnvelope(input: Input)
    ensures AreEnvelope([Field("From", Unfolded(FormatAddress(input.from))),
                       Field("To", Unfolded(FormatAddressList(input.to)))])
    ensures AreEnvelope([Field("Subject", Unfolded(EncodeHeaderValue(input.subject))), Field("Date", input.date),
                       Field("Message-ID", input.messageId)])
    ensures AreEnvelope([Field("MIME-Version", "1.0")])
  {
    hide Unfolded, FormatAddress, FormatAddressList, EncodeHeaderValue;
  }

  lemma {:induction false} EnvelopeLookup(input: Input, content: seq<Field>, name: string)
    requires name == "content-type" || name == "content-transfer-encoding"
    ensures Lookup(EnvelopeFields(input) + content, name) == Lookup(content, name)
  {
    EnvelopeNames(input);
    var fields := EnvelopeFields(input);
    hide EnvelopeFields, Lower, Lookup;
    forall f <- fields ensures Lower(f.name) != name {
      EnvelopeNameIsNotContent(f.name);
    }
    LookupSkips(fields, content, name);
  }

  lemma {:induction false} TypeName()
    ensures Lower("Content-Type") == "content-type"
  {
  }

  lemma {:induction false} EncodingName()
    ensures Lower("Content-Transfer-Encoding") == "content-transfer-encoding"
    ensures Lower("Content-Type") != "content-transfer-encoding"
  {
    assert |Lower("Content-Type")| == 12;
  }

  function ContentFields(contentType: string): seq<Field> {
    [Field("Content-Type", contentType), Field("Content-Transfer-Encoding", "base64")]
  }

  lemma {:induction false} ContentLookup(contentType: string, more: seq<Field>)
    ensures Lookup(ContentFields(contentType) + more, "content-type") == Some(contentType)
    ensures Lookup(ContentFields(contentType) + more, "content-transfer-encoding") == Some("base64")
  {
    TypeName();
    EncodingName();
    hide Lower;
    var fields := ContentFields(contentType) + more;
    assert fields[1..][0] == Field("Content-Transfer-Encoding", "base64");
  }

  // ---- Leaves ----

  lemma {:induction false} BodyLines(content: seq<byte>)
    ensures Concat(Lines(Body(content))) == Base64(content)
    ensures forall l <- Lines(Body(content)) :: l == "" || IsBase64Char(l[0])
  {
    var code := Base64(content);
    Base64Alphabet(content);
    hide Base64, IsBase64Char;
    var pieces := ChunkLines(code);
    if pieces == [] {
      assert Concat([""]) == "" + Concat([]);
    } else {
      LinesJoin(pieces);
      PiecesAreClean(pieces, code);
      PlainLines(pieces);
    }
  }

  lemma {:induction false} PiecesAreClean(pieces: seq<string>, code: string)
    requires Concat(pieces) == code && forall c <- code :: IsBase64Char(c)
    ensures forall p <- pieces :: OneLine(p) && (p == "" || IsBase64Char(p[0]))
  {
    if pieces != [] {
      var p, rest := pieces[0], Concat(pieces[1..]);
      assert forall c <- p :: c in p + rest;
      assert forall c <- rest :: c in p + rest;
      assert !IsBase64Char('\r') && !IsBase64Char('\n');
      hide IsBase64Char;
      assert p != "" ==> p[0] in p;
      PiecesAreClean(pieces[1..], rest);
    }
  }

  lemma {:induction false} LeafParses(texts: seq<string>, fields: seq<Field>, contentType: string, content: seq<byte>)
    requires AreHeaders(texts, fields)
    requires Lookup(fields, "content-type") == Some(contentType)
    requires Lookup(fields, "content-transfer-encoding") == Some("base64")
    requires IsMultipart(contentType) ==> BoundaryOf(contentType).None?
    ensures ParseEntity(EntityLines(texts, Lines(Body(content))))
         == if IsMultipart(contentType) then None else Some(Leaf(fields, content))
  {
    hide ParseEntity, Lookup, IsMultipart, BoundaryOf, AreHeaders, EntityLines;
    EntityParses(texts, fields, Lines(Body(content)));
    BodyLines(content);
    Base64RoundTrip(content);
  }

  // ---- Parts and the lines they are made of ----

  lemma {:induction false} PartLines(headers: seq<string>, body: string)
    ensures Lines(Part(headers, body)) == EntityLines(headers, Lines(body))
  {
    LinesJoin(headers + ["", body]);
    AllLinesAppend(headers, ["", body]);
    BlankAndBody(body);
    hide Lines, AllLines;
  }

  lemma {:induction false} BlankAndBody(body: string)
    ensures AllLines(["", body]) == [""] + Lines(body)
  {
    assert AllLines([body]) == Lines(body) + AllLines([body][1..]);
    assert AllLines(["", body]) == Lines("") + AllLines(["", body][1..]);
    assert ["", body][1..] == [body];
  }

  function EachLines(parts: seq<string>): seq<seq<string>> {
    if parts == [] then [] else [Lines(parts[0])] + EachLines(parts[1..])
  }

  lemma {:induction false} DelimitedLines(boundary: string, parts: seq<string>)
    requires OneLine(boundary)
    ensures AllLines(Delimited(boundary, parts) + [Closing(boundary), ""]) == Wrapped(boundary, EachLines(parts))
  {
    if parts == [] {
      OneLineIsItself(Closing(boundary));
      assert [Closing(boundary), ""][1..] == [""] && [""][1..] == [];
      assert Delimited(boundary, parts) + [Closing(boundary), ""] == [Closing(boundary), ""];
    } else {
      hide OneLine;
      DelimitedLines(boundary, parts[1..]);
      var first := "--" + boundary + CRLF + parts[0];
      LinesAppend("--" + boundary, parts[0]);
      OneLineIsItself("--" + boundary);
      var all := Delimited(boundary, parts) + [Closing(boundary), ""];
      assert all[0] == first && all[1..] == Delimited(boundary, parts[1..]) + [Closing(boundary), ""];
      assert EachLines(parts)[1..] == EachLines(parts[1..]);
    }
  }

  lemma {:induction false} WrapLines(boundary: string, parts: seq<string>)
    requires OneLine(boundary)
    ensures Lines(WrapMultipart(boundary, parts)) == Wrapped(boundary, EachLines(parts))
  {
    DelimitedLines(boundary, parts);
    LinesJoin(Delimited(boundary, parts) + [Closing(boundary), ""]);
  }

  // ---- Boundary lines ----

  predicate AreContentFields(fields: seq<Field>) {
    forall i :: 0 <= i < |fields| ==> fields[i].name != "" && fields[i].name[0] == 'C'
  }

  lemma {:induction false} HeadersKeepClear(texts: seq<string>, fields: seq<Field>, boundary: string)
    requires AreHeaders(texts, fields) && AreContentFields(fields)
    ensures KeepsClear(AllLines(texts), boundary)
  {
    if texts != [] {
      HeaderFirstLine(texts[0], fields[0]);
      HeadersKeepClear(texts[1..], fields[1..], boundary);
      forall l <- Lines(texts[0]) ensures !(Opening(boundary) <= l) {
        assert l == Lines(texts[0])[0] || l in Lines(texts[0])[1..];
      }
    }
  }

  /** Header lines start with a letter or a space, and base64 has no `-`. */
  lemma {:induction false} LeafKeepsClear(texts: seq<string>, fields: seq<Field>, content: seq<byte>, boundary: string)
    requires AreHeaders(texts, fields) && AreContentFields(fields)
    ensures KeepsClear(EntityLines(texts, Lines(Body(content))), boundary)
  {
    HeadersKeepClear(texts, fields, boundary);
    var header, body := AllLines(texts), Lines(Body(content));
    BodyLines(content);
    assert !IsBase64Char('-');
    hide IsBase64Char, Body, Lines, AllLines;
    forall l <- EntityLines(texts, body) ensures !(Opening(boundary) <= l) {
      assert l in header || l == "" || l in body;
    }
  }

  lemma {:induction false} ClearAppend(a: seq<string>, b: seq<string>, boundary: string)
    requires KeepsClear(a, boundary) && KeepsClear(b, boundary)
    ensures KeepsClear(a + b, boundary)
  {
  }

  lemma {:induction false} WrappedKeepsClear(inner: string, outer: string, parts: seq<seq<string>>)
    requires inner != "" && outer != "" && inner[0] != outer[0]
    requires forall p <- parts :: KeepsClear(p, outer)
    ensures KeepsClear(Wrapped(inner, parts), outer)
  {
    assert Opening(outer)[2] == outer[0] && Opening(inner)[2] == inner[0] && Closing(inner)[2] == inner[0];
    if parts == [] {
    } else {
      WrappedKeepsClear(inner, outer, parts[1..]);
      assert KeepsClear([Opening(inner)], outer);
      hide KeepsClear, Opening, Closing;
      ClearAppend([Opening(inner)], parts[0], outer);
      ClearAppend([Opening(inner)] + parts[0], Wrapped(inner, parts[1..]), outer);
    }
  }

  // ---- The text parts ----

  lemma {:induction false} TextTypeIsNotMultipart(contentType: string)
    requires contentType != "" && contentType[0] == 't'
    ensures !IsMultipart(contentType)
  {
    var t := contentType[..IndexOf(contentType, ';')];
    assert t != "" && t[0] == 't';
    assert !IsSpace('t') && TrimStart(t) == t;
    var m := TrimEnd(t);
    if m != "" {
      assert m[0] == 't';
    }
  }

  lemma {:induction false} TextHeadersAre(contentType: string)
    requires OneLine(contentType)
    ensures AreHeaders(TextHeaders(contentType), ContentFields(contentType))
    ensures AreContentFields(ContentFields(contentType))
  {
    hide IsHeader, Line, IsFieldName;
    OtherNamesAreFieldNames();
    VersionIsOneLine();
    PlainLineIsHeader("Content-Type", contentType);
    PlainLineIsHeader("Content-Transfer-Encoding", "base64");
  }

  lemma {:induction false} TextTypes()
    ensures OneLine(TEXT_PLAIN) && OneLine(TEXT_HTML)
  {
  }

  function TextLeaf(contentType: string, text: string): Entity {
    Leaf(ContentFields(contentType), Utf8(text))
  }

  /** A text body, as a part or as the whole message after its envelope. */
  lemma {:induction false} TextParses(contentType: string, text: string, boundary: string)
    requires OneLine(contentType) && contentType != "" && contentType[0] == 't'
    ensures var lines := EntityLines(TextHeaders(contentType), Lines(Body(Utf8(text))));
            ParseEntity(lines) == Some(TextLeaf(contentType, text)) && KeepsClear(lines, boundary)
  {
    hide ParseEntity, Lookup, KeepsClear, EntityLines, IsMultipart, AreHeaders, ContentFields, TextHeaders, Body, Lines,
         OneLine, Utf8;
    TextHeadersAre(contentType);
    TextTypeIsNotMultipart(contentType);
    ContentLookup(contentType, []);
    assert ContentFields(contentType) + [] == ContentFields(contentType);
    LeafParses(TextHeaders(contentType), ContentFields(contentType), contentType, Utf8(text));
    LeafKeepsClear(TextHeaders(contentType), ContentFields(contentType), Utf8(text), boundary);
  }
}
