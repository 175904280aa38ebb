/** `extractHeaderNames`, by which the allowlist of header fields is enforced. */
module HeaderNames {
  import opened Strings
  import opened Text
  import opened Headers
  import opened MimeParser
  import opened Composer
  import opened MimeParts
  import opened MimeRoundTrip

  const ALLOWED_HEADERS: set<string> := {
    "from", "to", "cc", "bcc", "subject", "date", "message-id", "in-reply-to", "references", "mime-version",
    "content-type", "content-transfer-encoding", "content-disposition", "content-id"
  }

  const BLANK := "\r\n\r\n"

  /** `split(CRLF + CRLF)[0]`. */
  function HeaderBlock(raw: string): string {
    if raw == "" || BLANK <= raw then "" else [raw[0]] + HeaderBlock(raw[1..])
  }

  /** The filters and the map over the lines of the block. */
  function NamesIn(lines: seq<string>): seq<string> {
    if lines == [] then []
    else
      var rest := NamesIn(lines[1..]);
      var line := lines[0];
      if line != "" && IsSpace(line[0]) then rest
      else
        var name := Lower(Trim(line[..IndexOf(line, ':')]));
        if name == "" then rest else [name] + rest
  }

  function ExtractHeaderNames(raw: string): seq<string> {
    NamesIn(Lines(HeaderBlock(raw)))
  }

  // ---- The block is found ----

  predicate NoEmptyLineAfterFirst(s: string) {
    forall i :: 1 <= i < |Lines(s)| ==> Lines(s)[i] != ""
  }

  lemma {:induction false} BlockIsNotHere(s: string, rest: string)
    requires s != "" && NoEmptyLineAfterFirst(s)
    ensures !(BLANK <= s + BLANK + rest)
  {
    var whole := s + BLANK + rest;
    if |s| >= 2 && s[0] == '\r' && s[1] == '\n' {
      assert Lines(s)[1] == Lines(s[2..])[0];
      assert s[2..] != "" && whole[2] == s[2];
      if |s| == 3 {
        assert whole[3] == '\r';
      } else {
        assert whole[3] == s[3] && s[2..][0] == s[2] && s[2..][1] == s[3];
      }
    } else if |s| == 1 {
      assert whole[1] == '\r';
    } else {
      assert whole[0] == s[0] && whole[1] == s[1];
    }
  }

  lemma {:induction false} TailHasNoEmptyLine(s: string)
    requires s != "" && NoEmptyLineAfterFirst(s)
    ensures NoEmptyLineAfterFirst(s[1..])
  {
    var a, b := Lines(s), Lines(s[1..]);
    if |s| >= 2 && s[0] == '\r' && s[1] == '\n' {
      assert s[1..][1..] == s[2..];
      forall i | 1 <= i < |b| ensures b[i] != "" {
        assert a[i + 1] == b[i];
      }
    } else {
      forall i | 1 <= i < |b| ensures b[i] != "" {
        assert a[i] == b[i];
      }
    }
  }

  lemma {:induction false} BlockIs(s: string, rest: string)
    requires NoEmptyLineAfterFirst(s)
    ensures HeaderBlock(s + BLANK + rest) == s
  {
    hide NoEmptyLineAfterFirst;
    var whole := s + BLANK + rest;
    if s == "" {
      assert whole == BLANK + rest;
    } else {
      BlockIsNotHere(s, rest);
      TailHasNoEmptyLine(s);
      assert whole[1..] == s[1..] + BLANK + rest;
      BlockIs(s[1..], rest);
      assert s == [s[0]] + s[1..];
    }
  }

  // ---- The names are read ----

  lemma {:induction false} NamesAppend(a: seq<string>, b: seq<string>)
    ensures NamesIn(a + b) == NamesIn(a) + NamesIn(b)
  {
    if a == [] {
      assert a + b == b;
    } else {
      assert (a + b)[1..] == a[1..] + b;
      NamesAppend(a[1..], b);
    }
  }

  lemma {:induction false} ContinuationsHaveNoName(lines: seq<string>)
    requires forall l <- lines :: IsContinuation(l)
    ensures NamesIn(lines) == []
  {
    if lines != [] {
      assert IsContinuation(lines[0]) && IsSpace(' ');
      ContinuationsHaveNoName(lines[1..]);
    }
  }

  lemma {:induction false} FieldNameIsTrimmed(name: string)
    requires IsFieldName(name)
    ensures Trim(name) == name && Lower(name) != "" && !IsSpace(name[0])
  {
    assert name[0] in name && name[|name| - 1] in name;
    assert !IsSpace(name[0]) && !IsSpace(name[|name| - 1]);
    hide IsSpace;
    assert "" + name == name;
    TrimOfLine("", name);
    assert |Lower(name)| == |name|;
  }

  lemma {:induction false} FirstLineNames(line: string, name: string)
    requires IsFieldName(name) && name + ": " <= line
    ensures NamesIn([line]) == [Lower(name)]
  {
    var rest := line[|name| + 1..];
    assert line == name + [':'] + rest;
    assert ':' !in name;
    FieldNameIsTrimmed(name);
    hide IsSpace, Trim, Lower, IsFieldName;
    IndexIs(name, ':', rest);
    assert line[..|name|] == name;
    assert [line][1..] == [] && NamesIn([]) == [];
  }

  lemma {:induction false} HeaderNames(text: string, field: Field)
    requires IsHeader(text, field)
    ensures NamesIn(Lines(text)) == [Lower(field.name)]
  {
    var lines := Lines(text);
    FirstLineNames(lines[0], field.name);
    ContinuationsHaveNoName(lines[1..]);
    hide Lines, NamesIn;
    NamesAppend([lines[0]], lines[1..]);
    assert [lines[0]] + lines[1..] == lines;
  }

  function LowerNames(fields: seq<Field>): seq<string> {
    if fields == [] then [] else [Lower(fields[0].name)] + LowerNames(fields[1..])
  }

  lemma {:induction false} AllHeaderNames(texts: seq<string>, fields: seq<Field>)
    requires AreHeaders(texts, fields)
    ensures NamesIn(AllLines(texts)) == LowerNames(fields)
  {
    hide IsHeader, NamesIn, Lower;
    if texts == [] {
      assert AllLines(texts) == [];
      NoLinesNoNames();
    } else {
      HeaderNames(texts[0], fields[0]);
      AllHeaderNames(texts[1..], fields[1..]);
      NamesAppend(Lines(texts[0]), AllLines(texts[1..]));
    }
  }

  lemma {:induction false} NoLinesNoNames()
    ensures NamesIn([]) == []
  {
  }

  lemma {:induction false} BlockOfHeaders(texts: seq<string>, fields: seq<Field>, body: string)
    requires texts != [] && AreHeaders(texts, fields)
    ensures ExtractHeaderNames(Join(texts, CRLF) + CRLF + CRLF + body) == LowerNames(fields)
  {
    hide Lines, Join, AreHeaders, NamesIn, HeaderBlock;
    var head := Join(texts, CRLF);
    LinesJoin(texts);
    HeaderLinesAreFull(texts, fields);
    assert forall i :: 0 <= i < |Lines(head)| ==> Lines(head)[i] in AllLines(texts);
    BlockIs(head, body);
    assert head + BLANK + body == head + CRLF + CRLF + body;
    AllHeaderNames(texts, fields);
  }

  /** The fields pushed onto the message's own header list, in order. */
  function PushedFields(input: Input, tokens: Tokens): seq<Field> {
    EnvelopeFields(input)
    + if input.attachments != [] then TypeField("mixed", "mixed_" + tokens.first)
      else if input.bodyHtml != "" then TypeField("alternative", "alt_" + tokens.first)
      else ContentFields(TEXT_PLAIN)
  }

  lemma {:induction false} PushedAreHeaders(input: Input, tokens: Tokens)
    requires IsWellFormed(input, tokens) && AddressesAreSafe(input)
    ensures AreHeaders(AllHeaders(input, tokens), PushedFields(input, tokens))
  {
    hide AreHeaders, Envelope, EnvelopeFields, OneLine, IsWellFormed, AddressesAreSafe, TextHeaders, ContentFields,
         MultipartType, TypeField, Line;
    TokensAreOneLine(input, tokens);
    BoundariesAreOneLine(tokens.first);
    EnvelopeIsHeaders(input, tokens);
    TypeHeaderIs("mixed", "mixed_" + tokens.first);
    TypeHeaderIs("alternative", "alt_" + tokens.first);
    TextTypes();
    TextHeadersAre(TEXT_PLAIN);
    HeadersAppend(Envelope(input), EnvelopeFields(input), ContentHeaders(input, tokens),
                  if input.attachments != [] then TypeField("mixed", "mixed_" + tokens.first)
                  else if input.bodyHtml != "" then TypeField("alternative", "alt_" + tokens.first)
                  else ContentFields(TEXT_PLAIN));
  }

  /** The extractor reports exactly the fields that were pushed, folded or not. */
  lemma {:induction false} ExtractsThePushedNames(input: Input, tokens: Tokens)
    requires IsWellFormed(input, tokens)
    ensures match Compose(input, tokens)
            case Err(_) => true
            case Ok(raw) => ExtractHeaderNames(raw) == LowerNames(PushedFields(input, tokens))
  {
    hide AllHeaders, PushedFields, AreHeaders, IsWellFormed, AddressesAreSafe, ExtractHeaderNames, MessageBody;
    if Compose(input, tokens).Err? {
      return;
    }
    PushedAreHeaders(input, tokens);
    assert AllHeaders(input, tokens) != [] by { SomeHeaders(input, tokens); }
    BlockOfHeaders(AllHeaders(input, tokens), PushedFields(input, tokens), MessageBody(input, tokens));
  }

  lemma {:induction false} SomeHeaders(input: Input, tokens: Tokens)
    ensures AllHeaders(input, tokens) != []
  {
    EnvelopeIsSomething(input);
    hide Envelope, ContentHeaders;
  }

  // ---- All of them are allowed ----

  predicate AreAllowed(fields: seq<Field>) {
    forall i :: 0 <= i < |fields| ==> Lower(fields[i].name) in ALLOWED_HEADERS
  }

  lemma {:induction false} AllowedAppend(a: seq<Field>, b: seq<Field>)
    requires AreAllowed(a) && AreAllowed(b)
    ensures AreAllowed(a + b)
  {
  }

  lemma {:induction false} AddressNames()
    ensures Lower("From") == "from" && Lower("To") == "to" && Lower("Cc") == "cc" && Lower("Bcc") == "bcc"
  {
  }

  lemma {:induction false} MessageNames()
    ensures Lower("Subject") == "subject" && Lower("Date") == "date" && Lower("Message-ID") == "message-id"
  {
  }

  lemma {:induction false} ThreadNames()
    ensures Lower("In-Reply-To") == "in-reply-to" && Lower("References") == "references"
    ensures Lower("MIME-Version") == "mime-version"
  {
  }

  lemma {:induction false} DispositionNames()
    ensures Lower("Content-Disposition") == "content-disposition" && Lower("Content-ID") == "content-id"
  {
  }

  lemma {:induction false} EnvelopeNameIsAllowed(name: string)
    requires IsEnvelopeName(name)
    ensures Lower(name) in ALLOWED_HEADERS
  {
    AddressNames();
    MessageNames();
    ThreadNames();
    hide Lower;
  }

  lemma {:induction false} EnvelopeIsAllowed(input: Input)
    ensures AreAllowed(EnvelopeFields(input))
  {
    EnvelopeNames(input);
    var fields := EnvelopeFields(input);
    hide EnvelopeFields, Lower, IsEnvelopeName;
    forall i | 0 <= i < |fields| ensures Lower(fields[i].name) in ALLOWED_HEADERS {
      EnvelopeNameIsAllowed(fields[i].name);
    }
  }

  lemma {:induction false} ContentIsAllowed(contentType: string)
    ensures AreAllowed(ContentFields(contentType)) && AreAllowed([Field("Content-Type", contentType)])
  {
    TypeName();
    EncodingName();
    hide Lower;
  }

  lemma {:induction false} AllowedNames(fields: seq<Field>)
    requires AreAllowed(fields)
    ensures forall n <- LowerNames(fields) :: n in ALLOWED_HEADERS
  {
    hide Lower;
    if fields != [] {
      AllowedNames(fields[1..]);
    }
  }

  lemma {:induction false} PushedAreAllowed(input: Input, tokens: Tokens)
    ensures AreAllowed(PushedFields(input, tokens))
  {
    hide AreAllowed, EnvelopeFields, MultipartType, ContentFields;
    EnvelopeIsAllowed(input);
    ContentIsAllowed(TEXT_PLAIN);
    ContentIsAllowed(MultipartType("mixed", "mixed_" + tokens.first));
    ContentIsAllowed(MultipartType("alternative", "alt_" + tokens.first));
    AllowedAppend(EnvelopeFields(input),
                  if input.attachments != [] then TypeField("mixed", "mixed_" + tokens.first)
                  else if input.bodyHtml != "" then TypeField("alternative", "alt_" + tokens.first)
                  else ContentFields(TEXT_PLAIN));
  }

  /** Nothing outside the allowlist, whatever was composed. */
  lemma {:induction false} ExtractedNamesAreAllowed(input: Input, tokens: Tokens)
    requires IsWellFormed(input, tokens)
    ensures match Compose(input, tokens)
            case Err(_) => true
            case Ok(raw) => forall n <- ExtractHeaderNames(raw) :: n in ALLOWED_HEADERS
  {
    hide Compose, IsWellFormed, ExtractHeaderNames, AreAllowed, PushedFields, LowerNames;
    ExtractsThePushedNames(input, tokens);
    PushedAreAllowed(input, tokens);
    AllowedNames(PushedFields(input, tokens));
  }

  // ---- In the parts too ----

  predicate IsAllowedEntity(entity: Entity) {
    match entity
    case Leaf(fields, _) => AreAllowed(fields)
    case Multi(fields, parts) => AreAllowed(fields) && AreAllowedEntities(parts)
  }

  predicate AreAllowedEntities(entities: seq<Entity>) {
    entities == [] || (IsAllowedEntity(entities[0]) && AreAllowedEntities(entities[1..]))
  }

  lemma {:induction false} AttachmentIsAllowed(a: Attachment)
    ensures AreAllowed(AttachmentFields(a))
  {
    ContentIsAllowed(NamedType(a));
    DispositionIsAllowed(a);
    hide AreAllowed, ContentFields, DispositionFields, NamedType;
    AllowedAppend(ContentFields(NamedType(a)), DispositionFields(a));
  }

  lemma {:induction false} DispositionIsAllowed(a: Attachment)
    ensures AreAllowed(DispositionFields(a))
  {
    DispositionNames();
    hide Lower, Unfolded, EncodeFilename, SanitizeToken;
  }

  lemma {:induction false} AttachmentsAreAllowed(attachments: seq<Attachment>)
    requires AttachmentLeaves(attachments).Some?
    ensures AreAllowedEntities(AttachmentLeaves(attachments).value)
  {
    hide AreAllowed, ClaimsMultipart, AttachmentFields;
    if attachments != [] {
      AttachmentIsAllowed(attachments[0]);
      AttachmentsAreAllowed(attachments[1..]);
    }
  }

  lemma {:induction false} AlternativeIsAllowed(fields: seq<Field>, text: string, html: string, boundary: string)
    requires AreAllowed(fields)
    ensures IsAllowedEntity(Alternative(fields, text, html, boundary))
  {
    ContentIsAllowed(MultipartType("alternative", boundary));
    AllowedAppend(fields, TypeField("alternative", boundary));
    ContentIsAllowed(TEXT_PLAIN);
    ContentIsAllowed(TEXT_HTML);
    hide AreAllowed, ContentFields, MultipartType;
    var x, y := TextLeaf(TEXT_PLAIN, text), TextLeaf(TEXT_HTML, html);
    assert [x, y][1..] == [y] && [y][1..] == [];
    assert IsAllowedEntity(x) && IsAllowedEntity(y);
    assert AreAllowedEntities([y]);
    assert AreAllowedEntities([x, y]);
  }

  lemma {:induction false} MainIsAllowed(input: Input, boundary: string)
    ensures IsAllowedEntity(MainEntity(input, boundary))
  {
    hide ContentFields, Alternative;
    if input.bodyHtml != "" {
      AlternativeIsAllowed([], input.bodyText, input.bodyHtml, boundary);
    } else {
      ContentIsAllowed(TEXT_PLAIN);
    }
  }

  lemma {:induction false} ExpectedIsAllowed(input: Input, tokens: Tokens)
    requires Expected(input, tokens).Some?
    ensures IsAllowedEntity(Expected(input, tokens).value)
  {
    EnvelopeIsAllowed(input);
    ContentIsAllowed(TEXT_PLAIN);
    ContentIsAllowed(MultipartType("mixed", "mixed_" + tokens.first));
    AllowedAppend(EnvelopeFields(input), TypeField("mixed", "mixed_" + tokens.first));
    AllowedAppend(EnvelopeFields(input), ContentFields(TEXT_PLAIN));
    MainIsAllowed(input, "alt_" + tokens.second);
    hide EnvelopeFields, AreAllowed, ContentFields, MultipartType, MainEntity, TypeField;
    if input.attachments != [] {
      AttachmentsAreAllowed(input.attachments);
      var main, leaves := MainEntity(input, "alt_" + tokens.second), AttachmentLeaves(input.attachments).value;
      assert ([main] + leaves)[1..] == leaves;
    } else if input.bodyHtml != "" {
      AlternativeIsAllowed(EnvelopeFields(input), input.bodyText, input.bodyHtml, "alt_" + tokens.first);
    }
  }

  /**
   * No part of a message carries a field outside the allowlist either, whatever types its
   * attachments claim; and so does nothing that a reader finds.
   */
  lemma {:induction false} EveryPartIsAllowed(input: Input, tokens: Tokens)
    ensures AreAllowed(PushedFields(input, tokens))
    ensures IsAllowedEntity(MainEntity(input, "alt_" + tokens.second))
    ensures forall a <- input.attachments :: AreAllowed(AttachmentFields(a))
    ensures Expected(input, tokens).Some? ==> IsAllowedEntity(Expected(input, tokens).value)
  {
    hide AreAllowed, IsAllowedEntity, PushedFields, MainEntity, AttachmentFields, Expected;
    PushedAreAllowed(input, tokens);
    MainIsAllowed(input, "alt_" + tokens.second);
    forall a <- input.attachments ensures AreAllowed(AttachmentFields(a)) {
      AttachmentIsAllowed(a);
    }
    if Expected(input, tokens).Some? {
      ExpectedIsAllowed(input, tokens);
    }
  }
}
