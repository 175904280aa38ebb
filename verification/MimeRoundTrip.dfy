/** Parsing a composed message gives back what was composed. */
module MimeRoundTrip {
  import opened Basics
  import opened Encoding
  import opened Strings
  import opened Text
  import opened Headers
  import opened MimeParser
  import opened Composer
  import opened MimeParts

  // ---- Attachments ----

  lemma {:induction false} TypeCharsArePlain(s: string)
    requires IsMediaType(s)
    ensures forall c <- s :: IsTypeChar(c) || c == '/'
  {
    var i :| 0 < i < |s| - 1 && s[i] == '/'
      && (forall c <- s[..i] :: IsTypeChar(c)) && (forall c <- s[i + 1..] :: IsTypeChar(c));
    assert s == s[..i] + [s[i]] + s[i + 1..];
    hide IsTypeChar;
  }

  lemma {:induction false} MediaTypeIsPlain(t: string)
    requires IsMediaType(t)
    ensures t != "" && ';' !in t && OneLine(t)
  {
    TypeCharsArePlain(t);
    assert !IsTypeChar(';') && !IsTypeChar('\r') && !IsTypeChar('\n');
    hide IsTypeChar;
  }

  lemma {:induction false} NormalizedType(value: string)
    ensures var t := NormalizeMimeType(value);
            t != "" && ';' !in t && OneLine(t) && Trim(t) == t
  {
    hide Trim, IsMediaType, OneLine;
    if IsMediaType(Trim(value)) {
      TrimIsIdempotent(value);
      MediaTypeIsPlain(Trim(value));
    } else {
      UnknownType();
    }
  }

  lemma {:induction false} UnknownTypeIsTrimmed(t: string)
    requires |t| == 24 && t[0] == 'a' && t[23] == 'm'
    ensures Trim(t) == t
  {
    assert "" + t == t;
    TrimOfLine("", t);
  }

  lemma {:induction false} UnknownType()
    ensures var t := "application/octet-stream"; ';' !in t && OneLine(t) && Trim(t) == t
  {
    hide Trim;
    UnknownTypeIsTrimmed("application/octet-stream");
  }

  lemma {:induction false} FilenameIsFoldable(filename: string)
    ensures Foldable(EncodeFilename(filename))
  {
    var left := Without(filename, "\r\n\t\0\"\\;:");
    assert OneLine(left) by {
      assert '\r' in "\r\n\t\0\"\\;:" && '\n' in "\r\n\t\0\"\\;:";
    }
    TrimIsPart(left);
    PartIsOneLine(left, Trim(left));
    hide Trim, Without, OneLine, Foldable, EncodeHeaderValue, IsAscii;
    var cleaned := if Trim(left) == "" then "attachment" else Trim(left);
    assert OneLine("attachment") by { AttachmentIsOneLine(); }
    OneLineIsFoldable(cleaned);
    EncodedIsFoldable(cleaned);
  }

  lemma {:induction false} AttachmentIsOneLine()
    ensures OneLine("attachment")
  {
  }

  lemma {:induction false} PartIsOneLine(whole: string, part: string)
    requires OneLine(whole) && forall c <- part :: c in whole
    ensures OneLine(part)
  {
  }

  /** What a value reads as when a foldable text stands inside it. */
  lemma {:induction false} QuotedUnfolds(lead: string, text: string)
    requires OneLine(lead) && Foldable(text)
    ensures Foldable(lead + text + "\"") && Unfolded(lead + text + "\"") == lead + Unfolded(text) + "\""
  {
    hide Foldable, OneLine;
    OneLineOfBrackets();
    OneLineIsFoldable("\"");
    OneLineIsFoldable(lead);
    FoldableAppend(text, "\"");
    UnfoldedAppend(text, "\"");
    FoldableAppend(lead, text + "\"");
    UnfoldedPrefix(lead, text + "\"");
    assert lead + (text + "\"") == lead + text + "\"";
    assert lead + (Unfolded(text) + "\"") == lead + Unfolded(text) + "\"";
  }

  lemma {:induction false} UnfoldedAppend(s: string, t: string)
    requires Foldable(s)
    ensures Unfolded(s + t) == Unfolded(s) + Unfolded(t)
  {
    FoldableLines(s);
    LinesGlue(s, t);
    hide Lines, Foldable;
    ConcatGlued(Lines(s), Lines(t));
  }

  lemma {:induction false} ConcatGlued(a: seq<string>, b: seq<string>)
    requires a != [] && b != []
    ensures Concat(Glued(a, b)) == Concat(a) + Concat(b)
  {
    if |a| == 1 {
      assert Glued(a, b)[1..] == b[1..];
      assert Concat(a) == a[0] + Concat([]);
      assert a[0] + b[0] + Concat(b[1..]) == a[0] + (b[0] + Concat(b[1..]));
    } else {
      ConcatGlued(a[1..], b);
      assert Glued(a, b)[1..] == Glued(a[1..], b);
      assert a[0] + (Concat(a[1..]) + Concat(b)) == a[0] + Concat(a[1..]) + Concat(b);
    }
  }

  const NAME_PARAMETER := "; name=\""
  const FILENAME_PARAMETER := "attachment; filename=\""

  function NamedType(a: Attachment): string {
    NormalizeMimeType(a.mimeType) + NAME_PARAMETER + Unfolded(EncodeFilename(a.filename)) + "\""
  }

  function DispositionFields(a: Attachment): seq<Field> {
    [Field("Content-Disposition", FILENAME_PARAMETER + Unfolded(EncodeFilename(a.filename)) + "\"")]
    + if a.contentId == "" then [] else [Field("Content-ID", "<" + SanitizeToken(a.contentId) + ">")]
  }

  function AttachmentFields(a: Attachment): seq<Field> {
    ContentFields(NamedType(a)) + DispositionFields(a)
  }

  lemma {:induction false} Parameters()
    ensures OneLine(NAME_PARAMETER) && OneLine(FILENAME_PARAMETER)
  {
  }

  lemma {:induction false} ContentIdIsOneLine(contentId: string)
    ensures OneLine("<" + SanitizeToken(contentId) + ">")
  {
    var kept := SanitizeToken(contentId);
    assert '\r' in "\r\n\"\\;" && '\n' in "\r\n\"\\;";
  }

  lemma {:induction false} DispositionIsHeaders(a: Attachment)
    ensures IsHeader(Line("Content-Disposition", "attachment; filename=\"" + EncodeFilename(a.filename) + "\""),
                     DispositionFields(a)[0])
  {
    hide Foldable, OneLine, Unfolded, IsHeader, Line, EncodeFilename;
    OtherNamesAreFieldNames();
    FilenameIsFoldable(a.filename);
    Parameters();
    QuotedUnfolds(FILENAME_PARAMETER, EncodeFilename(a.filename));
    LineIsHeader("Content-Disposition", FILENAME_PARAMETER + EncodeFilename(a.filename) + "\"");
  }

  lemma {:induction false} NamedTypeIsHeader(a: Attachment)
    ensures IsHeader(
              Line("Content-Type", NormalizeMimeType(a.mimeType) + "; name=\"" + EncodeFilename(a.filename) + "\""),
              Field("Content-Type", NamedType(a)))
  {
    hide Foldable, OneLine, Unfolded, IsHeader, Line, EncodeFilename, NormalizeMimeType;
    OtherNamesAreFieldNames();
    FilenameIsFoldable(a.filename);
    Parameters();
    NormalizedType(a.mimeType);
    var lead := NormalizeMimeType(a.mimeType) + NAME_PARAMETER;
    OneLineAppend(NormalizeMimeType(a.mimeType), NAME_PARAMETER);
    QuotedUnfolds(lead, EncodeFilename(a.filename));
    LineIsHeader("Content-Type", lead + EncodeFilename(a.filename) + "\"");
  }

  lemma {:induction false} AttachmentHeadersAre(a: Attachment)
    ensures AreHeaders(AttachmentHeaders(a), AttachmentFields(a)) && AreContentFields(AttachmentFields(a))
  {
    hide IsHeader, Line, IsFieldName, EncodeFilename, NormalizeMimeType, NamedType, SanitizeToken, OneLine, Unfolded;
    OtherNamesAreFieldNames();
    VersionIsOneLine();
    NamedTypeIsHeader(a);
    PlainLineIsHeader("Content-Transfer-Encoding", "base64");
    DispositionIsHeaders(a);
    ContentIdIsOneLine(a.contentId);
    PlainLineIsHeader("Content-ID", "<" + SanitizeToken(a.contentId) + ">");
  }

  /** A declared type a reader must open as a multipart, though it was sent as plain bytes. */
  predicate ClaimsMultipart(a: Attachment) {
    "multipart/" <= Lower(NormalizeMimeType(a.mimeType))
  }

  lemma {:induction false} NamedTypeReads(a: Attachment)
    ensures IsMultipart(NamedType(a)) <==> ClaimsMultipart(a)
    ensures BoundaryOf(NamedType(a)).None?
  {
    hide Lower, Trim, NormalizeMimeType, OneLine, EncodeFilename, Unfolded, MediaType, ParametersOf;
    NormalizedType(a.mimeType);
    var t, rest := NormalizeMimeType(a.mimeType), " name=\"" + Unfolded(EncodeFilename(a.filename)) + "\"";
    assert NamedType(a) == t + [';'] + rest;
    TypeReads(t, rest);
    assert ([';'] + rest)[2] == 'n' && BOUNDARY_START[2] == 'b';
  }

  function AttachmentLeaf(a: Attachment): Option<Entity> {
    if ClaimsMultipart(a) then None else Some(Leaf(AttachmentFields(a), a.content))
  }

  lemma {:induction false} AttachmentParses(a: Attachment, boundary: string)
    ensures ParseEntity(Lines(AttachmentPart(a))) == AttachmentLeaf(a)
    ensures KeepsClear(Lines(AttachmentPart(a)), boundary)
  {
    hide ParseEntity, Lookup, KeepsClear, EntityLines, IsMultipart, BoundaryOf, AreHeaders, ContentFields,
         AttachmentHeaders, DispositionFields, Body, Lines, NamedType, ClaimsMultipart, AreContentFields, Part;
    AttachmentHeadersAre(a);
    PartLines(AttachmentHeaders(a), Body(a.content));
    NamedTypeReads(a);
    ContentLookup(NamedType(a), DispositionFields(a));
    LeafParses(AttachmentHeaders(a), AttachmentFields(a), NamedType(a), a.content);
    LeafKeepsClear(AttachmentHeaders(a), AttachmentFields(a), a.content, boundary);
  }

  // ---- Multiparts ----

  /** The parser over a list of parts. */
  function Collect(parts: seq<seq<string>>): Option<seq<Entity>> {
    if parts == [] then Some([])
    else
      match (ParseEntity(parts[0]), Collect(parts[1..]))
      case (Some(entity), Some(rest)) => Some([entity] + rest)
      case _ => None
  }

  lemma {:induction false} CollectIsParseAll(parts: seq<seq<string>>, size: nat)
    requires |parts| <= size && forall p <- parts :: |p| < size
    ensures ParseAll(parts, size) == Collect(parts)
  {
    hide ParseEntity;
    if parts != [] {
      CollectIsParseAll(parts[1..], size);
    }
  }

  lemma {:induction false} LowerLetters(s: string)
    requires forall c <- s :: 'a' <= c <= 'z' || c == '/'
    ensures Lower(s) == s && ';' !in s
  {
    assert forall i :: 0 <= i < |s| ==> s[i] in s;
  }

  lemma {:induction false} MultipartTypeReads(kind: string, boundary: string)
    requires kind != "" && forall c <- kind :: 'a' <= c <= 'z'
    ensures IsMultipart(MultipartType(kind, boundary)) && BoundaryOf(MultipartType(kind, boundary)) == Some(boundary)
  {
    hide Lower, Trim, MediaType, ParametersOf;
    var media := "multipart/" + kind;
    LowerLetters(media);
    assert kind[|kind| - 1] in kind && "" + media == media;
    TrimOfLine("", media);
    var rest := " boundary=\"" + boundary + "\"";
    TypeReads(media, rest);
    assert MultipartType(kind, boundary) == media + [';'] + rest;
    var parameter := [';'] + rest;
    assert parameter == BOUNDARY_START + boundary + "\"";
    assert parameter[|BOUNDARY_START|..|parameter| - 1] == boundary;
  }

  lemma {:induction false} MultipartParses(texts: seq<string>, fields: seq<Field>, kind: string, boundary: string,
                                           parts: seq<string>)
    requires AreHeaders(texts, fields)
    requires kind != "" && forall c <- kind :: 'a' <= c <= 'z'
    requires Lookup(fields, "content-type") == Some(MultipartType(kind, boundary))
    requires OneLine(boundary) && forall p <- EachLines(parts) :: KeepsClear(p, boundary)
    ensures ParseEntity(EntityLines(texts, Lines(WrapMultipart(boundary, parts))))
         == match Collect(EachLines(parts)) case None => None case Some(entities) => Some(Multi(fields, entities))
  {
    hide ParseEntity, Lookup, IsMultipart, BoundaryOf, AreHeaders, EntityLines, SplitParts, KeepsClear,
         MultipartType, Collect, ParseAll, Lines;
    WrapLines(boundary, parts);
    var body := Wrapped(boundary, EachLines(parts));
    EntityParses(texts, fields, body);
    MultipartTypeReads(kind, boundary);
    PartsSplit(boundary, EachLines(parts));
    CollectIsParseAll(EachLines(parts), |body|);
  }

  // ---- The message ----

  function TypeField(kind: string, boundary: string): seq<Field> {
    [Field("Content-Type", MultipartType(kind, boundary))]
  }

  function Alternative(fields: seq<Field>, text: string, html: string, boundary: string): Entity {
    Multi(fields + TypeField("alternative", boundary), [TextLeaf(TEXT_PLAIN, text), TextLeaf(TEXT_HTML, html)])
  }

  function MainEntity(input: Input, boundary: string): Entity {
    if input.bodyHtml != "" then Alternative([], input.bodyText, input.bodyHtml, boundary)
    else TextLeaf(TEXT_PLAIN, input.bodyText)
  }

  function AttachmentLeaves(attachments: seq<Attachment>): Option<seq<Entity>> {
    if attachments == [] then Some([])
    else
      match (AttachmentLeaf(attachments[0]), AttachmentLeaves(attachments[1..]))
      case (Some(leaf), Some(rest)) => Some([leaf] + rest)
      case _ => None
  }

  /** What a reader should find. */
  function Expected(input: Input, tokens: Tokens): Option<Entity> {
    var envelope := EnvelopeFields(input);
    if input.attachments != [] then
      match AttachmentLeaves(input.attachments)
      case None => None
      case Some(leaves) =>
        Some(Multi(envelope + TypeField("mixed", "mixed_" + tokens.first),
                   [MainEntity(input, "alt_" + tokens.second)] + leaves))
    else if input.bodyHtml != "" then
      Some(Alternative(envelope, input.bodyText, input.bodyHtml, "alt_" + tokens.first))
    else Some(Leaf(envelope + ContentFields(TEXT_PLAIN), Utf8(input.bodyText)))
  }

  lemma {:induction false} AttachmentsParse(attachments: seq<Attachment>, boundary: string)
    ensures Collect(EachLines(AttachmentParts(attachments))) == AttachmentLeaves(attachments)
    ensures forall p <- EachLines(AttachmentParts(attachments)) :: KeepsClear(p, boundary)
  {
    hide ParseEntity, KeepsClear, AttachmentLeaf, AttachmentPart, Lines;
    if attachments != [] {
      AttachmentParses(attachments[0], boundary);
      AttachmentsParse(attachments[1..], boundary);
      var ps := EachLines(AttachmentParts(attachments));
      assert AttachmentParts(attachments)[1..] == AttachmentParts(attachments[1..]);
      assert ps[1..] == EachLines(AttachmentParts(attachments[1..]));
    }
  }

  lemma {:induction false} TextPartParses(text: string, boundary: string)
    ensures ParseEntity(Lines(TextPart(text))) == Some(TextLeaf(TEXT_PLAIN, text))
    ensures KeepsClear(Lines(TextPart(text)), boundary)
  {
    hide ParseEntity, KeepsClear, TextHeaders, Body, Utf8, Lines, EntityLines, Part, TextLeaf;
    TextTypes();
    PartLines(TextHeaders(TEXT_PLAIN), Body(Utf8(text)));
    TextParses(TEXT_PLAIN, text, boundary);
  }

  lemma {:induction false} HtmlPartParses(html: string, boundary: string)
    ensures ParseEntity(Lines(HtmlPart(html))) == Some(TextLeaf(TEXT_HTML, html))
    ensures KeepsClear(Lines(HtmlPart(html)), boundary)
  {
    hide ParseEntity, KeepsClear, TextHeaders, Body, Utf8, Lines, EntityLines, Part, TextLeaf;
    TextTypes();
    PartLines(TextHeaders(TEXT_HTML), Body(Utf8(html)));
    TextParses(TEXT_HTML, html, boundary);
  }

  lemma {:induction false} EachOfTwo(p: string, q: string)
    ensures EachLines([p, q]) == [Lines(p), Lines(q)]
  {
    hide Lines;
    assert [p, q][1..] == [q] && [q][1..] == [];
    assert EachLines([q]) == [Lines(q)] + EachLines([q][1..]);
  }

  lemma {:induction false} CollectTwo(p: seq<string>, q: seq<string>, x: Entity, y: Entity)
    requires ParseEntity(p) == Some(x) && ParseEntity(q) == Some(y)
    ensures Collect([p, q]) == Some([x, y])
  {
    hide ParseEntity;
    assert [p, q][1..] == [q] && [q][1..] == [];
    assert Collect([q][1..]) == Some([]);
    assert [y] + [] == [y];
    assert Collect([q]) == Some([y]);
    assert [x] + [y] == [x, y];
    assert Collect([p, q]) == Some([x] + [y]);
  }

  /** The alternative body under any headers that announce it. */
  lemma {:induction false} AlternativeParses(
      texts: seq<string>, fields: seq<Field>, text: string, html: string, boundary: string)
    requires OneLine(boundary)
    requires AreHeaders(texts, fields)
    requires Lookup(fields, "content-type") == Some(MultipartType("alternative", boundary))
    ensures ParseEntity(EntityLines(texts, Lines(AlternativeBody(text, html, boundary))))
         == Some(Multi(fields, [TextLeaf(TEXT_PLAIN, text), TextLeaf(TEXT_HTML, html)]))
  {
    hide ParseEntity, KeepsClear, Lines, EntityLines, TextLeaf, TextPart, HtmlPart, AreHeaders, Lookup, MultipartType,
         WrapMultipart, Collect;
    var parts := [TextPart(text), HtmlPart(html)];
    TextPartParses(text, boundary);
    HtmlPartParses(html, boundary);
    EachOfTwo(TextPart(text), HtmlPart(html));
    CollectTwo(Lines(TextPart(text)), Lines(HtmlPart(html)), TextLeaf(TEXT_PLAIN, text), TextLeaf(TEXT_HTML, html));
    MultipartParses(texts, fields, "alternative", boundary, parts);
  }

  lemma {:induction false} TypeHeaderIs(kind: string, boundary: string)
    requires OneLine(kind) && OneLine(boundary)
    ensures AreHeaders([Line("Content-Type", MultipartType(kind, boundary))], TypeField(kind, boundary))
    ensures AreContentFields(TypeField(kind, boundary))
  {
    hide IsHeader, Line, OneLine, IsFieldName;
    OtherNamesAreFieldNames();
    assert OneLine(MultipartType(kind, boundary)) by { MultipartTypeIsOneLine(kind, boundary); }
    PlainLineIsHeader("Content-Type", MultipartType(kind, boundary));
  }

  lemma {:induction false} MultipartTypeIsOneLine(kind: string, boundary: string)
    requires OneLine(kind) && OneLine(boundary)
    ensures OneLine(MultipartType(kind, boundary))
  {
    OneLineAppend("multipart/", kind);
    OneLineAppend("multipart/" + kind, "; boundary=\"");
    OneLineAppend("multipart/" + kind + "; boundary=\"", boundary);
    OneLineAppend("multipart/" + kind + "; boundary=\"" + boundary, "\"");
  }

  lemma {:induction false} TypeLookup(kind: string, boundary: string)
    ensures Lookup(TypeField(kind, boundary), "content-type") == Some(MultipartType(kind, boundary))
  {
    TypeName();
    hide Lower, MultipartType;
  }

  lemma {:induction false} BoundariesAreOneLine(token: string)
    requires OneLine(token)
    ensures OneLine("mixed_" + token) && OneLine("alt_" + token) && OneLine("mixed") && OneLine("alternative")
  {
  }

  /** The nested alternative keeps clear of the boundary around it. */
  lemma {:induction false} AlternativePartParses(text: string, html: string, inner: string, outer: string)
    requires OneLine(inner) && inner != "" && outer != "" && inner[0] != outer[0]
    ensures ParseEntity(Lines(AlternativePart(text, html, inner))) == Some(Alternative([], text, html, inner))
    ensures KeepsClear(Lines(AlternativePart(text, html, inner)), outer)
  {
    hide ParseEntity, KeepsClear, Lines, AlternativeBody, AreHeaders, AreContentFields, TypeField, Lookup,
         TextLeaf, Line, MultipartType, Part, OneLine;
    assert OneLine("alternative") by { BoundariesAreOneLine(""); }
    TypeHeaderIs("alternative", inner);
    TypeLookup("alternative", inner);
    var texts, fields := [Line("Content-Type", MultipartType("alternative", inner))], TypeField("alternative", inner);
    PartLines(texts, AlternativeBody(text, html, inner));
    AlternativeParses(texts, fields, text, html, inner);
    assert [] + fields == fields;
    AlternativeKeepsClear(text, html, inner, outer);
    HeadersKeepClear(texts, fields, outer);
    BlankKeepsClear(outer);
    ClearAppend(AllLines(texts), [""], outer);
    ClearAppend(AllLines(texts) + [""], Lines(AlternativeBody(text, html, inner)), outer);
  }

  lemma {:induction false} BlankKeepsClear(boundary: string)
    ensures KeepsClear([""], boundary)
  {
  }

  lemma {:induction false} AlternativeKeepsClear(text: string, html: string, inner: string, outer: string)
    requires OneLine(inner) && inner != "" && outer != "" && inner[0] != outer[0]
    ensures KeepsClear(Lines(AlternativeBody(text, html, inner)), outer)
  {
    hide KeepsClear, Lines, TextPart, HtmlPart, WrapMultipart, OneLine;
    WrapLines(inner, [TextPart(text), HtmlPart(html)]);
    EachOfTwo(TextPart(text), HtmlPart(html));
    TextPartParses(text, outer);
    HtmlPartParses(html, outer);
    WrappedKeepsClear(inner, outer, [Lines(TextPart(text)), Lines(HtmlPart(html))]);
  }

  lemma {:induction false} MainParses(input: Input, tokens: Tokens)
    requires IsWellFormed(input, tokens)
    ensures var p := MainPart(input, "alt_" + tokens.second);
            && ParseEntity(Lines(p)) == Some(MainEntity(input, "alt_" + tokens.second))
            && KeepsClear(Lines(p), "mixed_" + tokens.first)
  {
    hide ParseEntity, KeepsClear, Lines, Alternative, TextLeaf, AlternativePart, TextPart;
    BoundariesAreOneLine(tokens.second);
    TextPartParses(input.bodyText, "mixed_" + tokens.first);
    AlternativePartParses(input.bodyText, input.bodyHtml, "alt_" + tokens.second, "mixed_" + tokens.first);
  }

  lemma {:induction false} RawLines(input: Input, tokens: Tokens)
    ensures Lines(Raw(input, tokens)) == EntityLines(AllHeaders(input, tokens), Lines(MessageBody(input, tokens)))
  {
    hide Envelope, ContentHeaders, MessageBody, Lines;
    var headers, body := AllHeaders(input, tokens), MessageBody(input, tokens);
    assert headers != [] by { EnvelopeIsSomething(input); }
    var head := Join(headers, CRLF);
    LinesJoin(headers);
    LinesAppend(head, CRLF + body);
    LinesAppend("", body);
    assert "" + CRLF + body == CRLF + body && head + CRLF + (CRLF + body) == head + CRLF + CRLF + body;
    EmptyLine();
  }

  lemma {:induction false} EnvelopeIsSomething(input: Input)
    ensures Envelope(input) != []
  {
    hide Line, Folded;
  }

  lemma {:induction false} EmptyLine()
    ensures Lines("") == [""]
  {
  }

  lemma {:induction false} MixedParses(input: Input, tokens: Tokens)
    requires IsWellFormed(input, tokens) && AddressesAreSafe(input)
    requires input.attachments != []
    ensures Parse(Raw(input, tokens)) == Expected(input, tokens)
  {
    hide ParseEntity, KeepsClear, Lines, AreHeaders, Envelope, EnvelopeFields, Lookup, MainPart, MainEntity,
         AttachmentParts, AttachmentLeaves, WrapMultipart, MultipartType, OneLine, IsWellFormed,
         AddressesAreSafe, Raw, EntityLines, TypeField;
    assert OneLine(tokens.first) by { TokensAreOneLine(input, tokens); }
    var boundary := "mixed_" + tokens.first;
    BoundariesAreOneLine(tokens.first);
    TypeHeaderIs("mixed", boundary);
    TypeLookup("mixed", boundary);
    EnvelopeIsHeaders(input, tokens);
    HeadersAppend(Envelope(input), EnvelopeFields(input), ContentHeaders(input, tokens), TypeField("mixed", boundary));
    EnvelopeLookup(input, TypeField("mixed", boundary), "content-type");
    RawLines(input, tokens);
    MainParses(input, tokens);
    AttachmentsParse(input.attachments, boundary);
    var main, parts := MainPart(input, "alt_" + tokens.second), AttachmentParts(input.attachments);
    FirstOfEach(main, parts);
    MultipartParses(AllHeaders(input, tokens), EnvelopeFields(input) + TypeField("mixed", boundary), "mixed", boundary,
                    [main] + parts);
  }

  lemma {:induction false} TokensAreOneLine(input: Input, tokens: Tokens)
    requires IsWellFormed(input, tokens)
    ensures OneLine(tokens.first) && OneLine(tokens.second)
  {
  }

  lemma {:induction false} FirstOfEach(first: string, rest: seq<string>)
    ensures EachLines([first] + rest) == [Lines(first)] + EachLines(rest)
    ensures Collect(EachLines([first] + rest))
         == match (ParseEntity(Lines(first)), Collect(EachLines(rest)))
            case (Some(x), Some(xs)) => Some([x] + xs)
            case _ => None
  {
    hide Lines, ParseEntity;
    assert ([first] + rest)[1..] == rest;
    assert ([Lines(first)] + EachLines(rest))[1..] == EachLines(rest);
  }

  lemma {:induction false} AlternativeMessageParses(input: Input, tokens: Tokens)
    requires IsWellFormed(input, tokens) && AddressesAreSafe(input)
    requires input.attachments == [] && input.bodyHtml != ""
    ensures Parse(Raw(input, tokens)) == Expected(input, tokens)
  {
    hide ParseEntity, Lines, AreHeaders, Envelope, EnvelopeFields, Lookup, AlternativeBody, MultipartType, OneLine,
         IsWellFormed, AddressesAreSafe, Raw, EntityLines, TextLeaf, TypeField;
    assert OneLine(tokens.first) by { TokensAreOneLine(input, tokens); }
    var boundary := "alt_" + tokens.first;
    BoundariesAreOneLine(tokens.first);
    TypeHeaderIs("alternative", boundary);
    TypeLookup("alternative", boundary);
    EnvelopeIsHeaders(input, tokens);
    HeadersAppend(
      Envelope(input), EnvelopeFields(input), ContentHeaders(input, tokens), TypeField("alternative", boundary));
    EnvelopeLookup(input, TypeField("alternative", boundary), "content-type");
    RawLines(input, tokens);
    AlternativeParses(AllHeaders(input, tokens), EnvelopeFields(input) + TypeField("alternative", boundary),
                      input.bodyText, input.bodyHtml, boundary);
  }

  lemma {:induction false} PlainMessageParses(input: Input, tokens: Tokens)
    requires IsWellFormed(input, tokens) && AddressesAreSafe(input)
    requires input.attachments == [] && input.bodyHtml == ""
    ensures Parse(Raw(input, tokens)) == Expected(input, tokens)
  {
    hide ParseEntity, Lines, AreHeaders, Envelope, EnvelopeFields, Lookup, Body, OneLine, IsWellFormed,
         AddressesAreSafe, Raw, EntityLines, ContentFields, TextHeaders, Utf8, IsMultipart;
    TextTypes();
    TextHeadersAre(TEXT_PLAIN);
    EnvelopeIsHeaders(input, tokens);
    HeadersAppend(Envelope(input), EnvelopeFields(input), TextHeaders(TEXT_PLAIN), ContentFields(TEXT_PLAIN));
    var fields := EnvelopeFields(input) + ContentFields(TEXT_PLAIN);
    EnvelopeLookup(input, ContentFields(TEXT_PLAIN), "content-type");
    EnvelopeLookup(input, ContentFields(TEXT_PLAIN), "content-transfer-encoding");
    ContentLookup(TEXT_PLAIN, []);
    assert ContentFields(TEXT_PLAIN) + [] == ContentFields(TEXT_PLAIN);
    TextTypeIsNotMultipart(TEXT_PLAIN);
    RawLines(input, tokens);
    LeafParses(AllHeaders(input, tokens), fields, TEXT_PLAIN, Utf8(input.bodyText));
  }

  /** The whole message: every field unfolded, every body byte for byte, in order. */
  lemma {:induction false} ParseUndoesCompose(input: Input, tokens: Tokens)
    requires IsWellFormed(input, tokens)
    ensures Compose(input, tokens).Ok? ==> Parse(Compose(input, tokens).value) == Expected(input, tokens)
  {
    hide Raw, Expected, IsWellFormed, Parse;
    if Compose(input, tokens).Ok? {
      if input.attachments != [] {
        MixedParses(input, tokens);
      } else if input.bodyHtml != "" {
        AlternativeMessageParses(input, tokens);
      } else {
        PlainMessageParses(input, tokens);
      }
    }
  }

  // ---- What the reader gets ----

  /** The bodies of an entity, in order. */
  function Contents(entity: Entity): seq<seq<byte>> {
    match entity
    case Leaf(_, content) => [content]
    case Multi(_, parts) => AllContents(parts)
  }

  function AllContents(entities: seq<Entity>): seq<seq<byte>> {
    if entities == [] then [] else Contents(entities[0]) + AllContents(entities[1..])
  }

  function Files(attachments: seq<Attachment>): seq<seq<byte>> {
    if attachments == [] then [] else [attachments[0].content] + Files(attachments[1..])
  }

  /** The bodies that went in. */
  function Sent(input: Input): seq<seq<byte>> {
    [Utf8(input.bodyText)] + (if input.bodyHtml == "" then [] else [Utf8(input.bodyHtml)]) + Files(input.attachments)
  }

  lemma {:induction false} LeavesHoldFiles(attachments: seq<Attachment>)
    ensures AttachmentLeaves(attachments).Some? <==> forall a <- attachments :: !ClaimsMultipart(a)
    ensures AttachmentLeaves(attachments).Some? ==>
              AllContents(AttachmentLeaves(attachments).value) == Files(attachments)
  {
    hide ClaimsMultipart, AttachmentFields;
    if attachments != [] {
      LeavesHoldFiles(attachments[1..]);
      assert attachments == [attachments[0]] + attachments[1..];
    }
  }

  lemma {:induction false} TwoContents(x: Entity, y: Entity)
    ensures AllContents([x, y]) == Contents(x) + Contents(y)
    ensures AllContents([x]) == Contents(x)
  {
    hide Contents;
    assert [x, y][1..] == [y] && [y][1..] == [] && [x][1..] == [];
    assert AllContents([y]) == Contents(y) + AllContents([]);
    assert AllContents([x]) == Contents(x) + AllContents([]);
  }

  lemma {:induction false} MainHoldsTheText(input: Input, boundary: string)
    ensures Contents(MainEntity(input, boundary))
         == [Utf8(input.bodyText)] + (if input.bodyHtml == "" then [] else [Utf8(input.bodyHtml)])
  {
    hide Utf8, ContentFields, TypeField;
    if input.bodyHtml != "" {
      TwoContents(TextLeaf(TEXT_PLAIN, input.bodyText), TextLeaf(TEXT_HTML, input.bodyHtml));
    }
  }

  lemma {:induction false} ExpectedHolds(input: Input, tokens: Tokens)
    ensures Expected(input, tokens).Some? <==> forall a <- input.attachments :: !ClaimsMultipart(a)
    ensures Expected(input, tokens).Some? ==> Contents(Expected(input, tokens).value) == Sent(input)
  {
    hide Utf8, ContentFields, TypeField, ClaimsMultipart, EnvelopeFields, MainEntity, TextLeaf;
    LeavesHoldFiles(input.attachments);
    if input.attachments != [] {
      var main := MainEntity(input, "alt_" + tokens.second);
      MainHoldsTheText(input, "alt_" + tokens.second);
      if AttachmentLeaves(input.attachments).Some? {
        var leaves := AttachmentLeaves(input.attachments).value;
        assert ([main] + leaves)[1..] == leaves;
      }
    } else if input.bodyHtml != "" {
      AlternativeHolds(EnvelopeFields(input), input.bodyText, input.bodyHtml, "alt_" + tokens.first);
    }
  }

  lemma {:induction false} AlternativeHolds(fields: seq<Field>, text: string, html: string, boundary: string)
    ensures Contents(Alternative(fields, text, html, boundary)) == [Utf8(text), Utf8(html)]
  {
    hide Utf8, ContentFields, TypeField;
    TwoContents(TextLeaf(TEXT_PLAIN, text), TextLeaf(TEXT_HTML, html));
  }

  /**
   * A reader finds exactly the text, the HTML and the attachments that went in, byte for
   * byte and in order, for all contents; the one message it cannot open is one with an
   * attachment whose declared type is itself a multipart.
   */
  lemma {:induction false} ContentsSurviveExactly(input: Input, tokens: Tokens)
    requires IsWellFormed(input, tokens)
    ensures match Compose(input, tokens)
            case Err(_) => true
            case Ok(raw) =>
              && (Parse(raw).Some? <==> forall a <- input.attachments :: !ClaimsMultipart(a))
              && (Parse(raw).Some? ==> Contents(Parse(raw).value) == Sent(input))
    ensures FromUtf8(Sent(input)[0]) == Some(input.bodyText)
    ensures input.bodyHtml != "" ==> FromUtf8(Sent(input)[1]) == Some(input.bodyHtml)
  {
    hide Compose, Parse, Expected, IsWellFormed, Utf8, FromUtf8, Contents, ClaimsMultipart;
    ParseUndoesCompose(input, tokens);
    ExpectedHolds(input, tokens);
    Utf8RoundTrip(input.bodyText);
    Utf8RoundTrip(input.bodyHtml);
  }

  predicate AreLetters(s: string) {
    s != "" && forall c <- s :: 'a' <= c <= 'z'
  }

  lemma {:induction false} SlashedIsMediaType(x: string, y: string)
    requires AreLetters(x) && AreLetters(y)
    ensures IsMediaType(x + "/" + y)
  {
    var t := x + "/" + y;
    assert t[|x|] == '/' && t[..|x|] == x && t[|x| + 1..] == y;
  }

  lemma {:induction false} LettersAreTrimmed(t: string)
    requires t != "" && forall c <- t :: 'a' <= c <= 'z' || c == '/'
    ensures Trim(t) == t
  {
    assert t[0] in t && t[|t| - 1] in t && "" + t == t;
    TrimOfLine("", t);
  }

  /** Such attachments exist: the type check lets every multipart type through. */
  lemma {:induction false} MultipartTypeIsLetThrough(a: Attachment, kind: string)
    requires AreLetters(kind) && a.mimeType == "multipart" + "/" + kind
    ensures ClaimsMultipart(a)
  {
    hide Lower, IsMediaType, Trim;
    assert AreLetters("multipart");
    SlashedIsMediaType("multipart", kind);
    LowerLetters(a.mimeType);
    LettersAreTrimmed(a.mimeType);
  }
}
