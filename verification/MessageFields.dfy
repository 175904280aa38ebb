/** The fields a reader finds in a composed message, and what they say. */
module MessageFields {
  import opened Basics
  import opened Encoding
  import opened Strings
  import opened Text
  import opened Headers
  import opened EncodedWords
  import opened MimeParser
  import opened Composer
  import opened MimeParts
  import opened MimeRoundTrip
  import opened AddressFields

  // ---- Looking fields up ----

  /** The values of all fields of this name, in order. */
  function Values(fields: seq<Field>, name: string): seq<string> {
    if fields == [] then []
    else (if fields[0].name == name then [fields[0].value] else []) + Values(fields[1..], name)
  }

  lemma {:induction false} ValuesAppend(a: seq<Field>, b: seq<Field>, name: string)
    ensures Values(a + b, name) == Values(a, name) + Values(b, name)
  {
    if a == [] {
      assert a + b == b;
    } else {
      assert (a + b)[1..] == a[1..] + b;
      ValuesAppend(a[1..], b, name);
    }
  }

  /** One value if the names agree and the field is there. */
  function Given(present: bool, field: Field, name: string): seq<string> {
    if present && field.name == name then [field.value] else []
  }

  lemma {:induction false} SureValue(field: Field, name: string)
    ensures Values([field], name) == Given(true, field, name)
  {
    assert [field][1..] == [] && Values([field][1..], name) == [];
  }

  lemma {:induction false} OneValue(present: bool, field: Field, name: string)
    ensures Values(Optional(present, field), name) == Given(present, field, name)
  {
    SureValue(field, name);
  }

  lemma {:induction false} TwoFields(a: Field, b: Field, name: string)
    ensures Values([a, b], name) == Given(true, a, name) + Given(true, b, name)
  {
    ValuesAppend([a], [b], name);
    SureValue(a, name);
    SureValue(b, name);
    assert [a, b] == [a] + [b];
  }

  lemma {:induction false} ThreeFields(a: Field, b: Field, c: Field, name: string)
    ensures Values([a, b, c], name) == Given(true, a, name) + Given(true, b, name) + Given(true, c, name)
  {
    ValuesAppend([a, b], [c], name);
    TwoFields(a, b, name);
    SureValue(c, name);
    assert [a, b, c] == [a, b] + [c];
  }

  function Optional(present: bool, field: Field): seq<Field> {
    if present then [field] else []
  }

  function From(input: Input): Field { Field("From", Unfolded(FormatAddress(input.from))) }
  function To(input: Input): Field { Field("To", Unfolded(FormatAddressList(input.to))) }
  function Cc(input: Input): Field { Field("Cc", Unfolded(FormatAddressList(input.cc))) }
  function Bcc(input: Input): Field { Field("Bcc", Unfolded(FormatAddressList(input.bcc))) }
  function Subject(input: Input): Field { Field("Subject", Unfolded(EncodeHeaderValue(input.subject))) }
  function Date(input: Input): Field { Field("Date", input.date) }
  function Id(input: Input): Field { Field("Message-ID", input.messageId) }
  function Parent(input: Input): Field { Field("In-Reply-To", input.inReplyTo) }
  function References(input: Input): Field { Field("References", Join(input.references, " ")) }
  function Version(): Field { Field("MIME-Version", "1.0") }

  lemma EnvelopeInParts(input: Input)
    ensures EnvelopeFields(input)
         == [From(input), To(input)] + Optional(input.cc != [], Cc(input)) + Optional(input.bcc != [], Bcc(input))
            + [Subject(input), Date(input), Id(input)] + Optional(input.inReplyTo != "", Parent(input))
            + Optional(input.references != [], References(input)) + [Version()]
  {
    hide Unfolded, FormatAddress, FormatAddressList, EncodeHeaderValue, Join;
  }

  /** What is sent for each name, as it reads unfolded. */
  function Written(input: Input, name: string): seq<string> {
    (Given(true, From(input), name) + Given(true, To(input), name))
    + Given(input.cc != [], Cc(input), name) + Given(input.bcc != [], Bcc(input), name)
    + (Given(true, Subject(input), name) + Given(true, Date(input), name) + Given(true, Id(input), name))
    + Given(input.inReplyTo != "", Parent(input), name) + Given(input.references != [], References(input), name)
    + Given(true, Version(), name)
  }

  lemma {:induction false} EnvelopeValues(input: Input, name: string)
    ensures Values(EnvelopeFields(input), name) == Written(input, name)
  {
    EnvelopeInParts(input);
    hide Values, Given, Optional, EnvelopeFields, From, To, Cc, Bcc, Subject, Date, Id, Parent, References, Version;
    TwoFields(From(input), To(input), name);
    OneValue(input.cc != [], Cc(input), name);
    OneValue(input.bcc != [], Bcc(input), name);
    ThreeFields(Subject(input), Date(input), Id(input), name);
    OneValue(input.inReplyTo != "", Parent(input), name);
    OneValue(input.references != [], References(input), name);
    SureValue(Version(), name);
    AllAppend([From(input), To(input)], Optional(input.cc != [], Cc(input)), Optional(input.bcc != [], Bcc(input)),
                [Subject(input), Date(input), Id(input)], Optional(input.inReplyTo != "", Parent(input)),
                Optional(input.references != [], References(input)), [Version()], name);
  }

  lemma {:induction false} AllAppend(
      a: seq<Field>, b: seq<Field>, c: seq<Field>, d: seq<Field>, e: seq<Field>, f: seq<Field>, g: seq<Field>,
      name: string)
    ensures Values(a + b + c + d + e + f + g, name)
         == Values(a, name) + Values(b, name) + Values(c, name) + Values(d, name) + Values(e, name)
            + Values(f, name) + Values(g, name)
  {
    hide Values;
    ValuesAppend(a + b + c + d + e + f, g, name);
    ValuesAppend(a + b + c + d + e, f, name);
    ValuesAppend(a + b + c + d, e, name);
    ValuesAppend(a + b + c, d, name);
    ValuesAppend(a + b, c, name);
    ValuesAppend(a, b, name);
  }

  // ---- In a composed message ----

  predicate IsContentName(name: string) {
    name == "Content-Type" || name == "Content-Transfer-Encoding"
  }

  lemma {:induction false} ContentIsAside(input: Input, tokens: Tokens, name: string)
    requires !IsContentName(name)
    ensures Expected(input, tokens).Some? ==>
              Values(Expected(input, tokens).value.fields, name) == Written(input, name)
  {
    hide Values, Given, EnvelopeFields, MultipartType, Utf8, Written, MainEntity, AttachmentLeaves;
    EnvelopeValues(input, name);
    var mixed := MultipartType("mixed", "mixed_" + tokens.first);
    var alt := MultipartType("alternative", "alt_" + tokens.first);
    SureValue(Field("Content-Type", mixed), name);
    SureValue(Field("Content-Type", alt), name);
    TwoFields(Field("Content-Type", TEXT_PLAIN), Field("Content-Transfer-Encoding", "base64"), name);
    ValuesAppend(EnvelopeFields(input), TypeField("mixed", "mixed_" + tokens.first), name);
    ValuesAppend(EnvelopeFields(input), TypeField("alternative", "alt_" + tokens.first), name);
    ValuesAppend(EnvelopeFields(input), ContentFields(TEXT_PLAIN), name);
    assert Given(true, Field("Content-Type", mixed), name) == [] && Given(true, Field("Content-Type", alt), name) == []
      && Given(true, Field("Content-Type", TEXT_PLAIN), name) == []
      && Given(true, Field("Content-Transfer-Encoding", "base64"), name) == [] by { NotGiven(mixed, alt, name); }
  }

  lemma NotGiven(mixed: string, alt: string, name: string)
    requires !IsContentName(name)
    ensures Given(true, Field("Content-Type", mixed), name) == []
    ensures Given(true, Field("Content-Type", alt), name) == []
    ensures Given(true, Field("Content-Type", TEXT_PLAIN), name) == []
    ensures Given(true, Field("Content-Transfer-Encoding", "base64"), name) == []
  {
  }

  /** The message was composed, and this is what a reader makes of it. */
  predicate IsRead(input: Input, tokens: Tokens, entity: Entity) {
    && IsWellFormed(input, tokens) && input.to != [] && Compose(input, tokens).Ok?
    && Parse(Compose(input, tokens).value) == Some(entity)
  }

  lemma ReadWasSent(input: Input, tokens: Tokens, entity: Entity)
    requires IsRead(input, tokens, entity)
    ensures IsWellFormed(input, tokens) && input.to != []
  {
    hide IsWellFormed, Compose, Parse;
  }

  lemma {:induction false} ValuesRead(input: Input, tokens: Tokens, entity: Entity, name: string)
    requires IsRead(input, tokens, entity) && !IsContentName(name)
    ensures Values(entity.fields, name) == Written(input, name)
  {
    hide Compose, Parse, Expected, IsWellFormed, Values, Written, IsContentName;
    ParseUndoesCompose(input, tokens);
    ContentIsAside(input, tokens, name);
  }

  lemma {:induction false} AddressNamesAre(input: Input)
    ensures Written(input, "From") == [Unfolded(FormatAddress(input.from))]
    ensures Written(input, "To") == [Unfolded(FormatAddressList(input.to))]
    ensures Written(input, "Cc") == if input.cc == [] then [] else [Unfolded(FormatAddressList(input.cc))]
    ensures Written(input, "Bcc") == if input.bcc == [] then [] else [Unfolded(FormatAddressList(input.bcc))]
  {
    hide Unfolded, FormatAddress, FormatAddressList, EncodeHeaderValue, Join;
  }

  lemma {:induction false} OtherNamesAre(input: Input)
    ensures Written(input, "Subject") == [Unfolded(EncodeHeaderValue(input.subject))]
    ensures Written(input, "Date") == [input.date] && Written(input, "Message-ID") == [input.messageId]
    ensures Written(input, "In-Reply-To") == if input.inReplyTo == "" then [] else [input.inReplyTo]
    ensures Written(input, "References") == if input.references == [] then [] else [Join(input.references, " ")]
  {
    hide Unfolded, FormatAddress, FormatAddressList, EncodeHeaderValue, Join;
  }

  /** One field that reads as these addresses, or none if there are none. */
  ghost predicate ListsThem(values: seq<string>, addresses: seq<Address>) {
    if addresses == [] then values == [] else |values| == 1 && ReadsAs(values[0], addresses)
  }

  predicate AllClear(addresses: seq<Address>) {
    forall a <- addresses :: IsClear(a)
  }

  lemma {:induction false} ListReads(addresses: seq<Address>)
    requires AllClear(addresses)
    ensures ListsThem(if addresses == [] then [] else [Unfolded(FormatAddressList(addresses))], addresses)
  {
    hide IsClear, FormatAddressList, ReadsAs, Unfolded;
    if addresses != [] {
      AddressListReads(addresses);
    }
  }

  /** One field that is read as this address. */
  ghost predicate NamesIt(values: seq<string>, a: Address) {
    |values| == 1 && Arrives(values[0], a)
  }

  lemma {:induction false} AddressReads(a: Address)
    requires IsClear(a)
    ensures NamesIt([Unfolded(FormatAddress(a))], a)
  {
    hide IsClear, FormatAddress, Unfolded, Arrives;
    ClearArrives(a);
  }

  predicate AreClear(input: Input) {
    IsClear(input.from) && AllClear(input.to) && AllClear(input.cc) && AllClear(input.bcc)
  }

  lemma {:induction false} AddressesAreRead(input: Input)
    requires AreClear(input) && input.to != []
    ensures NamesIt(Written(input, "From"), input.from) && ListsThem(Written(input, "To"), input.to)
    ensures ListsThem(Written(input, "Cc"), input.cc) && ListsThem(Written(input, "Bcc"), input.bcc)
  {
    AddressNamesAre(input);
    hide Written, IsClear, AllClear, NamesIt, FormatAddress, FormatAddressList, Unfolded, ListsThem;
    AddressReads(input.from);
    ListReads(input.to);
    ListReads(input.cc);
    ListReads(input.bcc);
  }

  /** The sender and every recipient arrive where they were put, in order, with their names. */
  lemma {:induction false} AddressFieldsReadBack(input: Input, tokens: Tokens, entity: Entity)
    requires IsRead(input, tokens, entity) && AreClear(input)
    ensures var fields := entity.fields;
            && NamesIt(Values(fields, "From"), input.from)
            && ListsThem(Values(fields, "To"), input.to) && ListsThem(Values(fields, "Cc"), input.cc)
            && ListsThem(Values(fields, "Bcc"), input.bcc)
  {
    hide Written, AreClear, IsRead, Values, NamesIt, ListsThem, IsWellFormed;
    ReadWasSent(input, tokens, entity);
    ValuesRead(input, tokens, entity, "From");
    ValuesRead(input, tokens, entity, "To");
    ValuesRead(input, tokens, entity, "Cc");
    ValuesRead(input, tokens, entity, "Bcc");
    AddressesAreRead(input);
  }

  /** ASCII text that this reader takes for an encoded word somewhere. */
  predicate IsMisread(d: Decoder, text: string) {
    IsAscii(text) && Decodes(d, Lex(text))
  }

  /** One field that is shown as this text. */
  predicate Shows(d: Decoder, values: seq<string>, text: string) {
    |values| == 1 && Decode(d, Lex(values[0])) == text
  }

  /** One field that holds these ids, or none if there are none. */
  predicate HoldsIds(values: seq<string>, ids: seq<string>) {
    if ids == [] then values == [] else |values| == 1 && Split(values[0], ' ') == ids
  }

  lemma {:induction false} SubjectShows(d: Decoder, subject: string)
    requires IsDecoder(d) && OneLine(subject) && !IsMisread(d, Trim(subject))
    ensures Shows(d, [Unfolded(EncodeHeaderValue(subject))], Trim(subject))
  {
    hide Unfolded, IsDecoder, OneLine, EncodeHeaderValue, Clean, Trim, Decode, Decodes, Lex, IsAscii;
    OneLineIsTrimmed(subject);
    HeaderValueDecodesExactly(d, subject);
  }

  lemma {:induction false} OthersAreRead(d: Decoder, input: Input, tokens: Tokens)
    requires IsDecoder(d) && OneLine(input.subject) && IsWellFormed(input, tokens)
    ensures !IsMisread(d, Trim(input.subject)) ==> Shows(d, Written(input, "Subject"), Trim(input.subject))
    ensures Written(input, "Date") == [input.date] && Written(input, "Message-ID") == [input.messageId]
    ensures Written(input, "In-Reply-To") == (if input.inReplyTo == "" then [] else [input.inReplyTo])
    ensures HoldsIds(Written(input, "References"), input.references)
  {
    OtherNamesAre(input);
    hide Written, Unfolded, IsDecoder, OneLine, EncodeHeaderValue, Join, Split, Trim, Shows, IsMisread, IsId;
    if !IsMisread(d, Trim(input.subject)) {
      SubjectShows(d, input.subject);
    }
    if input.references != [] {
      IdsSplit(input.references);
    }
  }

  /**
   * The subject is shown trimmed, unless the reader takes ASCII text for an encoded word; the date and
   * the ids are the ones given, and those of the parent are there exactly if it is a reply.
   */
  lemma {:induction false} OtherFieldsReadBack(d: Decoder, input: Input, tokens: Tokens, entity: Entity)
    requires IsRead(input, tokens, entity) && IsDecoder(d) && OneLine(input.subject)
    ensures var fields := entity.fields;
            && (!IsMisread(d, Trim(input.subject)) ==> Shows(d, Values(fields, "Subject"), Trim(input.subject)))
            && Values(fields, "Date") == [input.date] && Values(fields, "Message-ID") == [input.messageId]
            && Values(fields, "In-Reply-To") == (if input.inReplyTo == "" then [] else [input.inReplyTo])
            && HoldsIds(Values(fields, "References"), input.references)
  {
    hide Written, IsRead, Values, IsDecoder, OneLine, Trim, Shows, IsMisread, HoldsIds, IsWellFormed;
    ReadWasSent(input, tokens, entity);
    ValuesRead(input, tokens, entity, "Subject");
    ValuesRead(input, tokens, entity, "Date");
    ValuesRead(input, tokens, entity, "Message-ID");
    ValuesRead(input, tokens, entity, "In-Reply-To");
    ValuesRead(input, tokens, entity, "References");
    OthersAreRead(d, input, tokens);
  }

  lemma {:induction false} IdsSplit(ids: seq<string>)
    requires ids != [] && forall id <- ids :: IsId(id)
    ensures Split(Join(ids, " "), ' ') == ids
  {
    assert IsSpace(' ');
    hide IsSpace;
    forall id <- ids ensures ' ' !in id {
      assert IsId(id);
    }
    assert [' '] == " ";
    SplitJoined(ids, ' ');
  }

  lemma BreaksCollapse(breaks: string, rest: string)
    requires breaks != "" && (forall c <- breaks :: IsBreak(c)) && (rest != "" ==> !IsBreak(rest[0]))
    ensures CollapseBreaks(breaks + rest) == " " + CollapseBreaks(rest)
  {
    var s := breaks + rest;
    if |breaks| > 1 {
      assert s[0] == breaks[0] && s[1] == breaks[1] && s[1..] == breaks[1..] + rest;
      assert forall c <- breaks[1..] :: c in breaks;
      BreaksCollapse(breaks[1..], rest);
    } else {
      assert s[1..] == rest;
    }
  }

  /** A run of breaks in a value becomes one space. */
  lemma {:induction false} BreaksBecomeOneSpace(line: string, breaks: string, rest: string)
    requires OneLine(line) && breaks != "" && (forall c <- breaks :: IsBreak(c))
    requires rest != "" ==> !IsBreak(rest[0])
    ensures CollapseBreaks(line + breaks + rest) == line + " " + CollapseBreaks(rest)
  {
    var s := line + breaks + rest;
    if line == "" {
      BreaksCollapse(breaks, rest);
      assert s == breaks + rest;
    } else {
      assert s[0] == line[0] && s[1..] == line[1..] + breaks + rest;
      BreaksBecomeOneSpace(line[1..], breaks, rest);
      assert line == [line[0]] + line[1..];
    }
  }

  // ---- The bodies and what they are said to be ----

  datatype Typed = Typed(contentType: seq<string>, content: seq<byte>)

  function TypeOf(fields: seq<Field>): seq<string> {
    Values(fields, "Content-Type")
  }

  /** The bodies of an entity, in order, each with its type. */
  function TypedContents(entity: Entity): seq<Typed> {
    match entity
    case Leaf(fields, content) => [Typed(TypeOf(fields), content)]
    case Multi(_, parts) => AllTypedContents(parts)
  }

  function AllTypedContents(entities: seq<Entity>): seq<Typed> {
    if entities == [] then [] else TypedContents(entities[0]) + AllTypedContents(entities[1..])
  }

  function TypedFiles(attachments: seq<Attachment>): seq<Typed> {
    if attachments == [] then []
    else [Typed([NamedType(attachments[0])], attachments[0].content)] + TypedFiles(attachments[1..])
  }

  function TextSent(input: Input): seq<Typed> {
    [Typed(["text/plain; charset=\"UTF-8\""], Utf8(input.bodyText))]
    + if input.bodyHtml == "" then [] else [Typed(["text/html; charset=\"UTF-8\""], Utf8(input.bodyHtml))]
  }

  lemma {:induction false} ContentTypeIs(contentType: string, more: seq<Field>)
    requires forall f <- more :: f.name != "Content-Type"
    ensures TypeOf(ContentFields(contentType) + more) == [contentType]
  {
    ValuesAppend(ContentFields(contentType), more, "Content-Type");
    TwoFields(Field("Content-Type", contentType), Field("Content-Transfer-Encoding", "base64"), "Content-Type");
    OthersGiveNothing(more, "Content-Type");
    hide Values;
  }

  lemma {:induction false} OthersGiveNothing(fields: seq<Field>, name: string)
    requires forall f <- fields :: f.name != name
    ensures Values(fields, name) == []
  {
    if fields != [] {
      OthersGiveNothing(fields[1..], name);
    }
  }

  lemma {:induction false} LeavesAreTyped(attachments: seq<Attachment>)
    ensures AttachmentLeaves(attachments).Some? ==>
              AllTypedContents(AttachmentLeaves(attachments).value) == TypedFiles(attachments)
  {
    hide ClaimsMultipart, AttachmentFields, TypeOf, NamedType;
    if attachments != [] && AttachmentLeaves(attachments).Some? {
      LeavesAreTyped(attachments[1..]);
      AttachmentTypeIs(attachments[0]);
    }
  }

  lemma {:induction false} AttachmentTypeIs(a: Attachment)
    ensures TypeOf(AttachmentFields(a)) == [NamedType(a)]
  {
    hide NamedType, TypeOf, Unfolded, EncodeFilename, SanitizeToken;
    ContentTypeIs(NamedType(a), DispositionFields(a));
  }

  lemma {:induction false} TwoTyped(x: Entity, y: Entity)
    ensures AllTypedContents([x, y]) == TypedContents(x) + TypedContents(y)
  {
    hide TypedContents;
    assert [x, y][1..] == [y] && [y][1..] == [];
    assert AllTypedContents([y]) == TypedContents(y) + AllTypedContents([]);
  }

  lemma {:induction false} TextIsTyped(contentType: string, text: string)
    ensures TypedContents(TextLeaf(contentType, text)) == [Typed([contentType], Utf8(text))]
  {
    hide Utf8, TypeOf;
    ContentTypeIs(contentType, []);
    assert ContentFields(contentType) + [] == ContentFields(contentType);
  }

  lemma {:induction false} AlternativeIsTyped(fields: seq<Field>, text: string, html: string, boundary: string)
    ensures TypedContents(Alternative(fields, text, html, boundary))
         == [Typed(["text/plain; charset=\"UTF-8\""], Utf8(text)), Typed(["text/html; charset=\"UTF-8\""], Utf8(html))]
  {
    hide Utf8, TextLeaf, TypeField;
    TextIsTyped(TEXT_PLAIN, text);
    TextIsTyped(TEXT_HTML, html);
    TwoTyped(TextLeaf(TEXT_PLAIN, text), TextLeaf(TEXT_HTML, html));
  }

  lemma {:induction false} MainIsTyped(input: Input, boundary: string)
    ensures TypedContents(MainEntity(input, boundary)) == TextSent(input)
  {
    hide Utf8, TextLeaf, Alternative, TypedContents;
    TextIsTyped(TEXT_PLAIN, input.bodyText);
    AlternativeIsTyped([], input.bodyText, input.bodyHtml, boundary);
  }

  lemma {:induction false} ExpectedIsTyped(input: Input, tokens: Tokens)
    ensures Expected(input, tokens).Some? ==>
              TypedContents(Expected(input, tokens).value) == TextSent(input) + TypedFiles(input.attachments)
  {
    var envelope := EnvelopeFields(input);
    hide Utf8, TypeField, EnvelopeFields, MainEntity, TextSent, TypeOf, Alternative, AttachmentLeaf;
    if input.attachments != [] {
      MainIsTyped(input, "alt_" + tokens.second);
      LeavesAreTyped(input.attachments);
      if AttachmentLeaves(input.attachments).Some? {
        FirstIsTyped(MainEntity(input, "alt_" + tokens.second), AttachmentLeaves(input.attachments).value);
      }
    } else if input.bodyHtml != "" {
      AlternativeSent(input);
      AlternativeIsTyped(envelope, input.bodyText, input.bodyHtml, "alt_" + tokens.first);
    } else {
      PlainIsTyped(input);
    }
  }

  lemma AlternativeSent(input: Input)
    requires input.bodyHtml != "" && input.attachments == []
    ensures TextSent(input) + TypedFiles(input.attachments)
         == [Typed(["text/plain; charset=\"UTF-8\""], Utf8(input.bodyText)),
             Typed(["text/html; charset=\"UTF-8\""], Utf8(input.bodyHtml))]
  {
    hide Utf8;
  }

  lemma {:induction false} PlainIsTyped(input: Input)
    requires input.bodyHtml == "" && input.attachments == []
    ensures [Typed(TypeOf(EnvelopeFields(input) + ContentFields(TEXT_PLAIN)), Utf8(input.bodyText))]
         == TextSent(input) + TypedFiles(input.attachments)
  {
    var name := "Content-Type";
    hide Utf8, EnvelopeFields, Values, Written;
    EnvelopeValues(input, name);
    EnvelopeHasNoType(input);
    ValuesAppend(EnvelopeFields(input), ContentFields(TEXT_PLAIN), name);
    ContentTypeIs(TEXT_PLAIN, []);
    assert ContentFields(TEXT_PLAIN) + [] == ContentFields(TEXT_PLAIN);
    assert Values(EnvelopeFields(input) + ContentFields(TEXT_PLAIN), name) == [TEXT_PLAIN];
  }

  lemma {:induction false} EnvelopeHasNoType(input: Input)
    ensures Written(input, "Content-Type") == []
  {
    hide Unfolded, FormatAddress, FormatAddressList, EncodeHeaderValue, Join;
  }

  lemma FirstIsTyped(first: Entity, rest: seq<Entity>)
    ensures AllTypedContents([first] + rest) == TypedContents(first) + AllTypedContents(rest)
  {
    assert ([first] + rest)[1..] == rest;
  }

  /** The text, the HTML and the files arrive in order, each as what it was sent as. */
  lemma {:induction false} BodiesKeepTheirTypes(input: Input, tokens: Tokens, entity: Entity)
    requires IsRead(input, tokens, entity)
    ensures TypedContents(entity) == TextSent(input) + TypedFiles(input.attachments)
  {
    hide Compose, Parse, Expected, IsWellFormed, TypedContents, TextSent, TypedFiles;
    ParseUndoesCompose(input, tokens);
    ExpectedIsTyped(input, tokens);
  }

  /** A multipart of this media type. */
  predicate IsKind(entity: Entity, mediaType: string) {
    entity.Multi? && |TypeOf(entity.fields)| == 1 && MediaType(TypeOf(entity.fields)[0]) == mediaType
  }

  lemma {:induction false} KindReads(kind: string, boundary: string)
    requires kind != "" && forall c <- kind :: 'a' <= c <= 'z'
    ensures MediaType(MultipartType(kind, boundary)) == "multipart/" + kind
  {
    hide Lower, Trim, MediaType, ParametersOf;
    var media, rest := "multipart/" + kind, " boundary=\"" + boundary + "\"";
    LowerLetters(media);
    LettersAreTrimmed(media);
    TypeReads(media, rest);
    assert MultipartType(kind, boundary) == media + [';'] + rest;
  }

  lemma {:induction false} TypeFieldIs(fields: seq<Field>, kind: string, boundary: string, parts: seq<Entity>)
    requires kind != "" && forall c <- kind :: 'a' <= c <= 'z'
    requires TypeOf(fields) == []
    ensures IsKind(Multi(fields + TypeField(kind, boundary), parts), "multipart/" + kind)
  {
    KindReads(kind, boundary);
    ValuesAppend(fields, TypeField(kind, boundary), "Content-Type");
    SureValue(Field("Content-Type", MultipartType(kind, boundary)), "Content-Type");
    hide Values, MultipartType, MediaType;
  }

  /** Files make it a mixed multipart, and HTML beside text an alternative one, inside it or alone. */
  predicate IsLaidOut(input: Input, entity: Entity) {
    if input.attachments != [] then
      && IsKind(entity, "multipart/" + "mixed") && |entity.parts| == 1 + |input.attachments|
      && if input.bodyHtml == "" then entity.parts[0].Leaf? else IsKind(entity.parts[0], "multipart/" + "alternative")
    else if input.bodyHtml != "" then IsKind(entity, "multipart/" + "alternative")
    else entity.Leaf?
  }

  lemma {:induction false} LeavesAreCounted(attachments: seq<Attachment>)
    ensures AttachmentLeaves(attachments).Some? ==> |AttachmentLeaves(attachments).value| == |attachments|
  {
    hide AttachmentLeaf;
    if attachments != [] {
      LeavesAreCounted(attachments[1..]);
    }
  }

  lemma {:induction false} LayoutIs(input: Input, tokens: Tokens, entity: Entity)
    requires IsRead(input, tokens, entity)
    ensures IsLaidOut(input, entity)
  {
    hide Compose, Parse, EnvelopeFields, Written, IsWellFormed, IsKind, TypeField, TextLeaf, AttachmentLeaf, Utf8,
         Values;
    ParseUndoesCompose(input, tokens);
    EnvelopeValues(input, "Content-Type");
    EnvelopeHasNoType(input);
    LeavesAreCounted(input.attachments);
    var texts := [TextLeaf(TEXT_PLAIN, input.bodyText), TextLeaf(TEXT_HTML, input.bodyHtml)];
    NothingHasNoType();
    TypeFieldIs([], "alternative", "alt_" + tokens.second, texts);
    TypeFieldIs(EnvelopeFields(input), "alternative", "alt_" + tokens.first, texts);
    if input.attachments != [] {
      TypeFieldIs(EnvelopeFields(input), "mixed", "mixed_" + tokens.first, entity.parts);
      TextIsALeaf(input.bodyText);
    }
  }

  lemma NothingHasNoType()
    ensures TypeOf([]) == []
  {
  }

  lemma TextIsALeaf(text: string)
    ensures TextLeaf(TEXT_PLAIN, text).Leaf?
  {
  }

  // ---- What an attachment is called ----

  const DROPPED := "\r\n\t\0\"\\;:"

  predicate HasNone(s: string, dropped: string) {
    forall c <- s :: c !in dropped
  }

  lemma {:induction false} NothingToDrop(s: string, dropped: string)
    requires HasNone(s, dropped)
    ensures Without(s, dropped) == s
  {
    if s != "" {
      assert s[0] in s;
      NothingToDrop(s[1..], dropped);
      assert s == [s[0]] + s[1..];
    }
  }

  /** A file name as the fields have it: itself in ASCII, and what every reader shows as it otherwise. */
  predicate CallsIt(d: Decoder, written: string, filename: string) {
    if IsAscii(filename) then written == filename else Decode(d, Lex(written)) == filename
  }

  lemma {:induction false} FilenameIsKept(d: Decoder, filename: string)
    requires IsDecoder(d) && filename != "" && Trim(filename) == filename && HasNone(filename, DROPPED)
    ensures CallsIt(d, Unfolded(EncodeFilename(filename)), filename)
  {
    NothingToDrop(filename, DROPPED);
    assert OneLine(filename) by {
      assert '\r' in DROPPED && '\n' in DROPPED;
    }
    assert EncodeFilename(filename) == if IsAscii(filename) then filename else EncodeHeaderValue(filename);
    hide Trim, Without, HasNone, OneLine, IsAscii, EncodeHeaderValue, EncodeFilename, Unfolded, Decode, Lex, IsDecoder,
         Clean, Decodes;
    OneLineIsTrimmed(filename);
    if IsAscii(filename) {
      UnfoldedOneLine(filename);
    } else {
      HeaderValueDecodesExactly(d, filename);
    }
  }

  /** A file whose name has nothing else to it is called `attachment`. */
  lemma {:induction false} NamelessIsAttachment(filename: string)
    requires forall c <- filename :: IsSpace(c) || c in DROPPED
    ensures EncodeFilename(filename) == "attachment"
  {
    var kept := Without(filename, DROPPED);
    hide IsSpace, Trim, Without;
    TrimBetween(kept, "", "");
    assert kept + "" + "" == kept;
    assert IsAscii("attachment");
  }

  lemma WordCharsAreHarmless()
    ensures HasNone(WORD_START, DROPPED) && HasNone(WORD_END, DROPPED) && HasNone(" ", DROPPED)
    ensures forall c :: IsBase64Char(c) ==> c !in DROPPED
  {
  }

  lemma {:induction false} WordIsHarmless(part: string)
    ensures HasNone(Word(part), DROPPED)
  {
    Base64Alphabet(Utf8(part));
    WordCharsAreHarmless();
    assert forall c <- Headers.Encoded(part) :: IsBase64Char(c);
    hide Headers.Encoded, IsBase64Char, WORD_START, WORD_END;
  }

  lemma {:induction false} JoinIsHarmless(words: seq<string>)
    requires forall w <- words :: HasNone(w, DROPPED)
    ensures HasNone(Join(words, " "), DROPPED)
  {
    if words != [] {
      assert HasNone(words[0], DROPPED);
      JoinIsHarmless(words[1..]);
      WordCharsAreHarmless();
    }
  }

  lemma {:induction false} CodeIsHarmless(cleaned: string)
    requires OneLine(cleaned) && Trim(cleaned) == cleaned && !IsAscii(cleaned)
    ensures HasNone(Unfolded(EncodeHeaderValue(cleaned)), DROPPED)
  {
    CodeUnfolds(cleaned);
    var pieces := Headers.Pieces("", cleaned);
    hide Word, HasNone, Join, Trim, OneLine, IsAscii, EncodeHeaderValue, Headers.Pieces, Unfolded, Foldable;
    forall w <- Words(pieces) ensures HasNone(w, DROPPED) {
      var i :| 0 <= i < |pieces| && w == Word(pieces[i]);
      WordIsHarmless(pieces[i]);
    }
    JoinIsHarmless(Words(pieces));
  }

  lemma {:induction false} HarmlessIsOneLine(s: string)
    requires HasNone(s, DROPPED)
    ensures OneLine(s)
  {
    assert '\r' in DROPPED && '\n' in DROPPED;
  }

  lemma AttachmentIsHarmless()
    ensures HasNone("attachment", DROPPED) && Trim("attachment") == "attachment"
  {
    TrimOfTrimmed("attachment");
  }

  /** Whatever a file is called, nothing in the field can end the quoted name or the header. */
  lemma {:induction false} FilenameIsHarmless(filename: string)
    ensures HasNone(Unfolded(EncodeFilename(filename)), DROPPED)
  {
    var left := Without(filename, DROPPED);
    TrimIsPart(left);
    TrimIsIdempotent(left);
    AttachmentIsHarmless();
    var cleaned := if Trim(left) == "" then "attachment" else Trim(left);
    assert HasNone(cleaned, DROPPED) && Trim(cleaned) == cleaned;
    hide Trim, Without, IsAscii, OneLine, EncodeHeaderValue, HasNone, Unfolded;
    HarmlessIsOneLine(cleaned);
    if IsAscii(cleaned) {
      UnfoldedOneLine(cleaned);
    } else {
      CodeIsHarmless(cleaned);
    }
  }

  predicate AreTypeChars(s: string) {
    s != "" && forall c <- s :: IsTypeChar(c)
  }

  lemma {:induction false} TypeIsMediaType(x: string, y: string)
    requires AreTypeChars(x) && AreTypeChars(y)
    ensures IsMediaType(x + "/" + y)
  {
    var t := x + "/" + y;
    assert t[|x|] == '/' && t[..|x|] == x && t[|x| + 1..] == y;
    hide IsTypeChar;
  }

  lemma {:induction false} TypeIsTrimmed(x: string, y: string)
    requires AreTypeChars(x) && AreTypeChars(y)
    ensures var t := x + "/" + y; !IsSpace(t[0]) && !IsSpace(t[|t| - 1])
  {
    assert forall c :: IsTypeChar(c) ==> !IsSpace(c);
    hide IsTypeChar, IsSpace;
    assert x[0] in x && y[|y| - 1] in y;
  }

  /** A declared type of the form `x/y` is kept, white space around it aside. */
  lemma {:induction false} MediaTypeIsKept(before: string, x: string, y: string, after: string)
    requires IsAllSpace(before) && IsAllSpace(after) && AreTypeChars(x) && AreTypeChars(y)
    ensures NormalizeMimeType(before + (x + "/" + y) + after) == x + "/" + y
  {
    TypeIsMediaType(x, y);
    TypeIsTrimmed(x, y);
    hide IsMediaType, AreTypeChars, IsSpace, Trim, IsAllSpace;
    TrimBetween(before, x + "/" + y, after);
  }

  /** What declares no such type is sent as unknown bytes. */
  lemma {:induction false} OtherTypesAreUnknown(value: string)
    requires '/' !in value || exists c <- Trim(value) :: c != '/' && !IsTypeChar(c)
    ensures NormalizeMimeType(value) == "application/octet-stream"
  {
    TrimIsPart(value);
    hide IsTypeChar, Trim;
    if IsMediaType(Trim(value)) {
      TypeCharsArePlain(Trim(value));
    }
  }

  /** The attachment's type, its name in both places, and its content id if it has one. */
  predicate Describes(fields: seq<Field>, mediaType: string, written: string, contentId: string) {
    && Values(fields, "Content-Type") == [mediaType + "; name=\"" + written + "\""]
    && Values(fields, "Content-Disposition") == ["attachment; filename=\"" + written + "\""]
    && Values(fields, "Content-ID") == if contentId == "" then [] else ["<" + contentId + ">"]
  }

  lemma {:induction false} AttachmentValues(a: Attachment)
    requires HasNone(a.contentId, "\r\n\"\\;")
    ensures Describes(AttachmentFields(a), NormalizeMimeType(a.mimeType), Unfolded(EncodeFilename(a.filename)),
                      a.contentId)
  {
    NothingToDrop(a.contentId, "\r\n\"\\;");
    AttachmentTypeIs(a);
    DispositionValues(a, "Content-Disposition");
    DispositionValues(a, "Content-ID");
    ValuesAppend(ContentFields(NamedType(a)), DispositionFields(a), "Content-Disposition");
    ValuesAppend(ContentFields(NamedType(a)), DispositionFields(a), "Content-ID");
    ContentGivesNone(NamedType(a));
    hide Values, ContentFields, DispositionFields, NormalizeMimeType, Unfolded, EncodeFilename, HasNone, Without;
  }

  lemma {:induction false} ContentGivesNone(contentType: string)
    ensures Values(ContentFields(contentType), "Content-Disposition") == []
    ensures Values(ContentFields(contentType), "Content-ID") == []
  {
    OthersGiveNothing(ContentFields(contentType), "Content-Disposition");
    OthersGiveNothing(ContentFields(contentType), "Content-ID");
  }

  lemma {:induction false} DispositionValues(a: Attachment, name: string)
    ensures Values(DispositionFields(a), name)
         == (if name == "Content-Disposition" then
               ["attachment; filename=\"" + Unfolded(EncodeFilename(a.filename)) + "\""] else [])
            + (if name == "Content-ID" && a.contentId != "" then ["<" + SanitizeToken(a.contentId) + ">"] else [])
  {
    hide Unfolded, EncodeFilename, SanitizeToken, Values;
    var disposition := Field("Content-Disposition", FILENAME_PARAMETER + Unfolded(EncodeFilename(a.filename)) + "\"");
    var id := Field("Content-ID", "<" + SanitizeToken(a.contentId) + ">");
    ValuesAppend([disposition], Optional(a.contentId != "", id), name);
    SureValue(disposition, name);
    OneValue(a.contentId != "", id, name);
  }

  /** An attachment arrives with its bytes, its type, and the name every reader shows for it. */
  lemma {:induction false} AttachmentIsDescribed(
      d: Decoder, a: Attachment, before: string, x: string, y: string, after: string)
    requires IsDecoder(d) && a.mimeType == before + (x + "/" + y) + after
    requires IsAllSpace(before) && IsAllSpace(after) && AreTypeChars(x) && AreTypeChars(y)
    requires a.filename != "" && Trim(a.filename) == a.filename && HasNone(a.filename, DROPPED)
    requires HasNone(a.contentId, "\r\n\"\\;") && !ClaimsMultipart(a)
    ensures match ParseEntity(Lines(AttachmentPart(a)))
            case Some(Leaf(fields, content)) =>
              && content == a.content
              && exists written :: Describes(fields, x + "/" + y, written, a.contentId)
                   && CallsIt(d, written, a.filename) && HasNone(written, DROPPED)
            case _ => false
  {
    hide IsDecoder, IsAllSpace, AreTypeChars, Trim, HasNone, ClaimsMultipart, ParseEntity, Lines, AttachmentPart,
         AttachmentFields, Describes, CallsIt, NormalizeMimeType, Unfolded, EncodeFilename, KeepsClear;
    AttachmentParses(a, "");
    MediaTypeIsKept(before, x, y, after);
    FilenameIsKept(d, a.filename);
    FilenameIsHarmless(a.filename);
    AttachmentValues(a);
  }
}
