/** `composeMime` and its part builders. */
module Composer {
  import opened Basics
  import opened Encoding
  import opened Strings
  import opened Text
  import opened Headers

  datatype Address = Address(name: string, address: string)

  datatype Attachment = Attachment(filename: string, mimeType: string, content: seq<byte>, contentId: string)

  /** Optional strings are empty when absent: the composer treats the two alike. */
  datatype Input = Input(
    from: Address, to: seq<Address>, cc: seq<Address>, bcc: seq<Address>,
    subject: string, bodyText: string, bodyHtml: string, attachments: seq<Attachment>,
    inReplyTo: string, references: seq<string>, date: string, messageId: string)

  datatype Problem = NoRecipient | LineBreakInAddress

  // ---- Bodies ----

  const BODY_WIDTH := 76

  function ChunkLines(s: string): (r: seq<string>)
    ensures forall l <- r :: 0 < |l| <= 76
    ensures Concat(r) == s
    ensures forall i :: 0 <= i < |r| - 1 ==> |r[i]| == 76
    decreases |s|
  {
    if s == "" then []
    else if |s| <= BODY_WIDTH then
      assert Concat([s]) == s + Concat([]);
      [s]
    else
      var rest := ChunkLines(s[BODY_WIDTH..]);
      assert ([s[..BODY_WIDTH]] + rest)[1..] == rest;
      [s[..BODY_WIDTH]] + rest
  }

  lemma {:induction false} ChunkStep(s: string, end: nat)
    requires s != "" && end == (if BODY_WIDTH < |s| then BODY_WIDTH else |s|)
    ensures ChunkLines(s) == [s[..end]] + ChunkLines(s[end..])
  {
  }

  method Chunk(base64: string) returns (chunked: string)
    ensures chunked == Join(ChunkLines(base64), CRLF)
  {
    hide ChunkLines, Join;
    var lines: seq<string>, i := [], 0;
    ghost var rest := base64;
    while i < |base64|
      invariant 0 <= i
      invariant if i < |base64| then rest == base64[i..] else rest == ""
      invariant ChunkLines(base64) == lines + ChunkLines(rest)
    {
      var end := if i + BODY_WIDTH < |base64| then i + BODY_WIDTH else |base64|;
      ChunkStep(rest, end - i);
      assert rest[..end - i] == base64[i..end] && rest[end - i..] == base64[end..];
      rest := rest[end - i..];
      lines := lines + [base64[i..end]];
      i := i + BODY_WIDTH;
    }
    NothingToChunk();
    assert lines + [] == lines;
    chunked := Join(lines, CRLF);
  }

  lemma {:induction false} NothingToChunk()
    ensures ChunkLines("") == []
  {
  }

  function Body(content: seq<byte>): string {
    Join(ChunkLines(Base64(content)), CRLF)
  }

  function Line(name: string, value: string): string {
    name + ": " + value
  }

  /** `[...headers, '', body].join(CRLF)`. */
  function Part(headers: seq<string>, body: string): string {
    Join(headers + ["", body], CRLF)
  }

  function TextHeaders(contentType: string): seq<string> {
    [Line("Content-Type", contentType), Line("Content-Transfer-Encoding", "base64")]
  }

  const TEXT_PLAIN := "text/plain; charset=\"UTF-8\""
  const TEXT_HTML := "text/html; charset=\"UTF-8\""

  function TextPart(text: string): string {
    Part(TextHeaders(TEXT_PLAIN), Body(Utf8(text)))
  }

  function HtmlPart(html: string): string {
    Part(TextHeaders(TEXT_HTML), Body(Utf8(html)))
  }

  function Delimited(boundary: string, parts: seq<string>): seq<string> {
    if parts == [] then [] else ["--" + boundary + CRLF + parts[0]] + Delimited(boundary, parts[1..])
  }

  function WrapMultipart(boundary: string, parts: seq<string>): string {
    Join(Delimited(boundary, parts) + ["--" + boundary + "--", ""], CRLF)
  }

  function MultipartType(kind: string, boundary: string): string {
    "multipart/" + kind + "; boundary=\"" + boundary + "\""
  }

  function AlternativeBody(text: string, html: string, boundary: string): string {
    WrapMultipart(boundary, [TextPart(text), HtmlPart(html)])
  }

  function AlternativePart(text: string, html: string, boundary: string): string {
    Part([Line("Content-Type", MultipartType("alternative", boundary))], AlternativeBody(text, html, boundary))
  }

  // ---- Attachments ----

  function Without(s: string, dropped: string): (r: string)
    ensures forall c <- r :: c in s && c !in dropped
  {
    if s == "" then ""
    else (if s[0] in dropped then "" else [s[0]]) + Without(s[1..], dropped)
  }

  predicate IsTypeChar(c: char) {
    || 'A' <= c <= 'Z' || 'a' <= c <= 'z' || '0' <= c <= '9'
    || c in "!#$&^_.+-"
  }

  /** `MIME_TYPE_RE`: two runs of type characters around one slash. */
  predicate IsMediaType(s: string) {
    exists i :: 0 < i < |s| - 1 && s[i] == '/'
      && (forall c <- s[..i] :: IsTypeChar(c)) && (forall c <- s[i + 1..] :: IsTypeChar(c))
  }

  function NormalizeMimeType(value: string): string {
    if IsMediaType(Trim(value)) then Trim(value) else "application/octet-stream"
  }

  function EncodeFilename(filename: string): string {
    var kept := Trim(Without(filename, "\r\n\t\0\"\\;:"));
    var cleaned := if kept == "" then "attachment" else kept;
    if IsAscii(cleaned) then cleaned else EncodeHeaderValue(cleaned)
  }

  function SanitizeToken(value: string): string {
    Without(value, "\r\n\"\\;")
  }

  function AttachmentHeaders(a: Attachment): seq<string> {
    var filename := EncodeFilename(a.filename);
    [Line("Content-Type", NormalizeMimeType(a.mimeType) + "; name=\"" + filename + "\""),
     Line("Content-Transfer-Encoding", "base64"),
     Line("Content-Disposition", "attachment; filename=\"" + filename + "\"")]
    + if a.contentId == "" then [] else [Line("Content-ID", "<" + SanitizeToken(a.contentId) + ">")]
  }

  function AttachmentPart(a: Attachment): string {
    Part(AttachmentHeaders(a), Body(a.content))
  }

  function AttachmentParts(attachments: seq<Attachment>): seq<string> {
    if attachments == [] then [] else [AttachmentPart(attachments[0])] + AttachmentParts(attachments[1..])
  }

  // ---- Addresses ----

  /** `assertNoHeaderInjection` lets this through. */
  predicate IsSafe(s: string) {
    OneLine(s) && '\0' !in s
  }

  predicate IsSafeAddress(a: Address) {
    IsSafe(Trim(a.address)) && (a.name != "" ==> IsSafe(Trim(a.name)))
  }

  predicate IsNameChar(c: char) {
    || 'A' <= c <= 'Z' || 'a' <= c <= 'z' || '0' <= c <= '9'
    || c in "_ .'-"
  }

  predicate IsSimpleName(name: string) {
    name != "" && forall c <- name :: IsNameChar(c)
  }

  function FormatAddress(a: Address): string {
    var email := Trim(a.address);
    if a.name == "" then email
    else
      var name := Trim(a.name);
      if IsSimpleName(name) then
        if '.' in name then "\"" + name + "\" <" + email + ">" else name + " <" + email + ">"
      else EncodeHeaderValue(name) + " <" + email + ">"
  }

  function FormatAddresses(addresses: seq<Address>): seq<string> {
    if addresses == [] then [] else [FormatAddress(addresses[0])] + FormatAddresses(addresses[1..])
  }

  function FormatAddressList(addresses: seq<Address>): string {
    Join(FormatAddresses(addresses), ", ")
  }

  // ---- The message ----

  /** The headers before the ones about the content. */
  function Envelope(input: Input): seq<string> {
    [Line("From", FormatAddress(input.from)), Line("To", FormatAddressList(input.to))]
    + (if input.cc == [] then [] else [Line("Cc", FormatAddressList(input.cc))])
    + (if input.bcc == [] then [] else [Line("Bcc", FormatAddressList(input.bcc))])
    + [Line("Subject", EncodeHeaderValue(input.subject)), Line("Date", input.date), Line("Message-ID", input.messageId)]
    + (if input.inReplyTo == "" then [] else [Line("In-Reply-To", input.inReplyTo)])
    + (if input.references == [] then [] else [Folded("References", Join(input.references, " "))])
    + [Line("MIME-Version", "1.0")]
  }

  /** The boundary source is asked once for `mixed`, and then, or first, for `alt`. */
  datatype Tokens = Tokens(first: string, second: string)

  function ContentHeaders(input: Input, tokens: Tokens): seq<string> {
    if input.attachments != [] then [Line("Content-Type", MultipartType("mixed", "mixed_" + tokens.first))]
    else if input.bodyHtml != "" then [Line("Content-Type", MultipartType("alternative", "alt_" + tokens.first))]
    else TextHeaders(TEXT_PLAIN)
  }

  /** The part that holds the text when there are attachments beside it. */
  function MainPart(input: Input, boundary: string): string {
    if input.bodyHtml != "" then AlternativePart(input.bodyText, input.bodyHtml, boundary) else TextPart(input.bodyText)
  }

  function MessageBody(input: Input, tokens: Tokens): string {
    if input.attachments != [] then
      WrapMultipart("mixed_" + tokens.first,
                    [MainPart(input, "alt_" + tokens.second)] + AttachmentParts(input.attachments))
    else if input.bodyHtml != "" then AlternativeBody(input.bodyText, input.bodyHtml, "alt_" + tokens.first)
    else Body(Utf8(input.bodyText))
  }

  predicate AddressesAreSafe(input: Input) {
    && IsSafeAddress(input.from)
    && (forall a <- input.to :: IsSafeAddress(a))
    && (forall a <- input.cc :: IsSafeAddress(a))
    && (forall a <- input.bcc :: IsSafeAddress(a))
  }

  function AllHeaders(input: Input, tokens: Tokens): seq<string> {
    Envelope(input) + ContentHeaders(input, tokens)
  }

  function Raw(input: Input, tokens: Tokens): string {
    Join(AllHeaders(input, tokens), CRLF) + CRLF + CRLF + MessageBody(input, tokens)
  }

  function Compose(input: Input, tokens: Tokens): Result<string, Problem> {
    if input.to == [] then Err(NoRecipient)
    else if !AddressesAreSafe(input) then Err(LineBreakInAddress)
    else Ok(Raw(input, tokens))
  }

  /** Nothing that could end a header, white space around it aside. */
  predicate IsHarmless(s: string) {
    forall c <- Trim(s) :: c != '\r' && c != '\n' && c != '\0'
  }

  /** A message is composed exactly if it has a recipient and no name or address holds a line break or a NUL. */
  lemma {:induction false} ComposedExactly(input: Input, tokens: Tokens)
    ensures Compose(input, tokens).Ok?
       <==> && input.to != []
            && forall a :: a == input.from || a in input.to || a in input.cc || a in input.bcc ==>
                 IsHarmless(a.address) && (a.name != "" ==> IsHarmless(a.name))
    ensures Compose(input, tokens) == Err(NoRecipient) <==> input.to == []
  {
    hide Trim, Raw;
    forall s ensures IsSafe(Trim(s)) <==> IsHarmless(s) {
    }
    forall a ensures IsSafeAddress(a) <==> IsHarmless(a.address) && (a.name != "" ==> IsHarmless(a.name)) {
    }
    hide IsSafeAddress, IsHarmless;
  }

  // ---- The program's order of work ----

  method FormatAll(addresses: seq<Address>) returns (list: Result<string, Problem>)
    ensures list == if forall a <- addresses :: IsSafeAddress(a) then Ok(FormatAddressList(addresses))
                    else Err(LineBreakInAddress)
  {
    hide Join, FormatAddress, IsSafeAddress;
    var formatted: seq<string> := [];
    for i := 0 to |addresses|
      invariant forall a <- addresses[..i] :: IsSafeAddress(a)
      invariant FormatAddresses(addresses) == formatted + FormatAddresses(addresses[i..])
    {
      var a := addresses[i];
      if !IsSafeAddress(a) {
        return Err(LineBreakInAddress);
      }
      assert addresses[i..][1..] == addresses[i + 1..];
      formatted := formatted + [FormatAddress(a)];
    }
    assert addresses[..|addresses|] == addresses && addresses[|addresses|..] == [];
    assert formatted == FormatAddresses(addresses);
    list := Ok(Join(formatted, ", "));
  }

  method EnvelopeHeaders(input: Input) returns (headers: Result<seq<string>, Problem>)
    ensures headers == if AddressesAreSafe(input) then Ok(Envelope(input)) else Err(LineBreakInAddress)
  {
    hide Line, FormatAddress, FormatAddressList, IsSafeAddress, EncodeHeaderValue, Folded, Join;
    if !IsSafeAddress(input.from) {
      return Err(LineBreakInAddress);
    }
    var to := FormatAll(input.to);
    var cc := FormatAll(input.cc);
    var bcc := FormatAll(input.bcc);
    if to.Err? || cc.Err? || bcc.Err? {
      return Err(LineBreakInAddress);
    }
    var hs := [Line("From", FormatAddress(input.from)), Line("To", to.value)];
    if input.cc != [] {
      hs := hs + [Line("Cc", cc.value)];
    }
    if input.bcc != [] {
      hs := hs + [Line("Bcc", bcc.value)];
    }
    var subject := EncodeHeaderValueByChunks(input.subject);
    hs := hs + [Line("Subject", subject), Line("Date", input.date), Line("Message-ID", input.messageId)];
    if input.inReplyTo != "" {
      hs := hs + [Line("In-Reply-To", input.inReplyTo)];
    }
    if input.references != [] {
      var references := FoldHeader("References", Join(input.references, " "));
      hs := hs + [references];
    }
    hs := hs + [Line("MIME-Version", "1.0")];
    assert hs == Envelope(input);
    headers := Ok(hs);
  }

  method ComposeMime(input: Input, tokens: Tokens) returns (raw: Result<string, Problem>)
    ensures raw == Compose(input, tokens)
  {
    hide Envelope, Line, AddressesAreSafe, Join, MultipartType, MainPart, AttachmentParts, WrapMultipart,
         AlternativeBody, Utf8, Base64, ChunkLines;
    if input.to == [] {
      return Err(NoRecipient);
    }
    var envelope := EnvelopeHeaders(input);
    if envelope.Err? {
      return Err(LineBreakInAddress);
    }
    var headers, body := envelope.value, "";
    if input.attachments != [] {
      var mixed := "mixed_" + tokens.first;
      headers := headers + [Line("Content-Type", MultipartType("mixed", mixed))];
      var parts := [MainPart(input, "alt_" + tokens.second)] + AttachmentParts(input.attachments);
      body := WrapMultipart(mixed, parts);
    } else if input.bodyHtml != "" {
      var alt := "alt_" + tokens.first;
      headers := headers + [Line("Content-Type", MultipartType("alternative", alt))];
      body := AlternativeBody(input.bodyText, input.bodyHtml, alt);
    } else {
      headers := headers + [Line("Content-Type", TEXT_PLAIN), Line("Content-Transfer-Encoding", "base64")];
      body := Chunk(Base64(Utf8(input.bodyText)));
    }
    raw := Ok(Join(headers, CRLF) + CRLF + CRLF + body);
  }
}
