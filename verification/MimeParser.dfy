/**
 * A recipient's parser for the messages the composer writes: header fields (section 2.2 of
 * RFC 5322), base64 bodies (section 6.8 of RFC 2045) and multipart bodies (section 5.1.1 of
 * RFC 2046). It works on the CRLF lines of a message.
 */
module MimeParser {
  import opened Basics
  import opened Encoding
  import opened Strings
  import opened Text
  import opened Headers

  datatype Field = Field(name: string, value: string)

  datatype Entity =
    | Leaf(fields: seq<Field>, content: seq<byte>)
    | Multi(fields: seq<Field>, parts: seq<Entity>)

  // ---- Fields ----

  predicate IsFolded(line: string) {
    line != "" && (line[0] == ' ' || line[0] == '\t')
  }

  /** The index of the first `c`, or the length. */
  function IndexOf(s: string, c: char): (i: nat)
    ensures i <= |s| && c !in s[..i] && (i < |s| ==> s[i] == c)
  {
    if s == "" || s[0] == c then 0 else 1 + IndexOf(s[1..], c)
  }

  lemma {:induction false} IndexIs(s: string, c: char, t: string)
    requires c !in s
    ensures IndexOf(s + [c] + t, c) == |s|
  {
    if s == "" {
      assert s + [c] + t == [c] + t;
    } else {
      assert s[0] in s;
      assert (s + [c] + t)[1..] == s[1..] + [c] + t;
      IndexIs(s[1..], c, t);
    }
  }

  /** Continuation lines are joined to the line they continue. */
  function UnfoldFields(lines: seq<string>): (r: seq<string>)
    ensures lines != [] ==> r != []
  {
    if lines == [] then []
    else
      var rest := UnfoldFields(lines[1..]);
      if |lines| > 1 && IsFolded(lines[1]) then [lines[0] + rest[0]] + rest[1..] else [lines[0]] + rest
  }

  function ReadField(line: string): Option<Field> {
    var i := IndexOf(line, ':');
    if i == |line| || i == 0 then None
    else
      var rest := line[i + 1..];
      Some(Field(line[..i], if rest != "" && rest[0] == ' ' then rest[1..] else rest))
  }

  function ReadFields(lines: seq<string>): Option<seq<Field>> {
    if lines == [] then Some([])
    else
      match (ReadField(lines[0]), ReadFields(lines[1..]))
      case (Some(field), Some(rest)) => Some([field] + rest)
      case _ => None
  }

  function Lookup(fields: seq<Field>, name: string): Option<string> {
    if fields == [] then None
    else if Lower(fields[0].name) == name then Some(fields[0].value)
    else Lookup(fields[1..], name)
  }

  // ---- Content types ----

  function MediaType(contentType: string): string {
    Lower(Trim(contentType[..IndexOf(contentType, ';')]))
  }

  predicate IsMultipart(contentType: string) {
    "multipart/" <= MediaType(contentType)
  }

  const BOUNDARY_START := "; boundary=\""

  /** What follows the media type. */
  function ParametersOf(contentType: string): string {
    contentType[IndexOf(contentType, ';')..]
  }

  lemma {:induction false} TypeReads(media: string, parameters: string)
    requires ';' !in media
    ensures var contentType := media + [';'] + parameters;
            MediaType(contentType) == Lower(Trim(media)) && ParametersOf(contentType) == [';'] + parameters
  {
    hide Lower, Trim, IndexOf;
    var contentType := media + [';'] + parameters;
    IndexIs(media, ';', parameters);
    assert contentType[..|media|] == media && contentType[|media|..] == [';'] + parameters;
  }

  /** The one parameter a multipart type must have (section 5.1 of RFC 2046). */
  function BoundaryOf(contentType: string): Option<string> {
    var rest := ParametersOf(contentType);
    if BOUNDARY_START <= rest && |rest| > |BOUNDARY_START| && rest[|rest| - 1] == '"' then
      Some(rest[|BOUNDARY_START|..|rest| - 1])
    else None
  }

  // ---- Bodies ----

  function Opening(boundary: string): string {
    "--" + boundary
  }

  function Closing(boundary: string): string {
    "--" + boundary + "--"
  }

  /** The index of the first boundary line, or the length. */
  function Until(lines: seq<string>, boundary: string): (i: nat)
    ensures i <= |lines|
  {
    if lines == [] || lines[0] == Opening(boundary) || lines[0] == Closing(boundary) then 0
    else 1 + Until(lines[1..], boundary)
  }

  /** The lines of each part; `None` when a part is not closed. */
  function SplitParts(lines: seq<string>, boundary: string): (r: Option<seq<seq<string>>>)
    ensures r.Some? ==> |r.value| <= |lines| && forall p <- r.value :: |p| < |lines|
    decreases |lines|
  {
    var start := Until(lines, boundary);
    if start == |lines| then None
    else if lines[start] == Closing(boundary) then Some([])
    else
      var rest := lines[start + 1..];
      var size := Until(rest, boundary);
      if size == |rest| then None
      else
        match SplitParts(rest[size..], boundary)
        case None => None
        case Some(parts) => Some([rest[..size]] + parts)
  }

  /** The number of header lines: up to the first empty one. */
  function HeaderSize(lines: seq<string>): (n: nat)
    ensures n <= |lines|
  {
    if lines == [] || lines[0] == "" then 0 else 1 + HeaderSize(lines[1..])
  }

  function ParseBody(fields: seq<Field>, body: seq<string>): Option<Entity>
    decreases |body|, |body| + 1
  {
    match Lookup(fields, "content-type")
    case None => None
    case Some(contentType) =>
      if IsMultipart(contentType) then
        match BoundaryOf(contentType)
        case None => None
        case Some(boundary) =>
          match SplitParts(body, boundary)
          case None => None
          case Some(parts) =>
            match ParseAll(parts, |body|)
            case None => None
            case Some(entities) => Some(Multi(fields, entities))
      else if Lookup(fields, "content-transfer-encoding") == Some("base64") then
        match FromBase64(Concat(body))
        case None => None
        case Some(content) => Some(Leaf(fields, content))
      else None
  }

  function ParseEntity(lines: seq<string>): Option<Entity>
    decreases |lines|, |lines| + 2
  {
    var n := HeaderSize(lines);
    if n == |lines| then None
    else
      match ReadFields(UnfoldFields(lines[..n]))
      case None => None
      case Some(fields) => ParseBody(fields, lines[n + 1..])
  }

  function ParseAll(parts: seq<seq<string>>, size: nat): Option<seq<Entity>>
    requires |parts| <= size && forall p <- parts :: |p| < size
    decreases size, |parts|
  {
    if parts == [] then Some([])
    else
      match (ParseEntity(parts[0]), ParseAll(parts[1..], size))
      case (Some(entity), Some(rest)) => Some([entity] + rest)
      case _ => None
  }

  function Parse(raw: string): Option<Entity> {
    ParseEntity(Lines(raw))
  }

  // ---- What the parser makes of well-formed lines ----

  /** A field name: printable ASCII without a colon. */
  predicate IsFieldName(name: string) {
    name != "" && forall c <- name :: '!' <= c <= '~' && c != ':'
  }

  /** Text that may stand in a header: any line after the first is a continuation. */
  predicate Foldable(text: string) {
    OneLine(Lines(text)[0]) && forall l <- Lines(text)[1..] :: IsContinuation(l)
  }

  /** `text` is the header of `field`, possibly over several lines. */
  predicate IsHeader(text: string, field: Field) {
    && IsFieldName(field.name)
    && Foldable(text)
    && field.name + ": " <= Lines(text)[0]
    && Unfolded(text) == field.name + ": " + field.value
  }

  predicate AreHeaders(texts: seq<string>, fields: seq<Field>) {
    |texts| == |fields| && forall i :: 0 <= i < |texts| ==> IsHeader(texts[i], fields[i])
  }

  lemma {:induction false} HeaderReads(field: Field)
    requires IsFieldName(field.name)
    ensures ReadField(field.name + ": " + field.value) == Some(field)
  {
    var line := field.name + ": " + field.value;
    assert line == field.name + [':'] + (" " + field.value);
    IndexIs(field.name, ':', " " + field.value);
    assert line[..|field.name|] == field.name && line[|field.name| + 1..] == " " + field.value;
    assert (" " + field.value)[1..] == field.value;
  }

  lemma {:induction false} ContinuationsJoin(lines: seq<string>, more: seq<string>)
    requires lines != [] && forall l <- lines[1..] :: IsContinuation(l)
    requires more != [] ==> !IsFolded(more[0])
    ensures UnfoldFields(lines + more) == [Concat(lines)] + UnfoldFields(more)
  {
    assert (lines + more)[1..] == lines[1..] + more;
    if |lines| == 1 {
      assert lines[1..] + more == more && lines[1..] == [];
      assert Concat(lines) == lines[0] + Concat([]);
      assert lines[0] + "" == lines[0];
    } else {
      assert IsContinuation(lines[1..][0]) && IsFolded(lines[1]);
      ContinuationsJoin(lines[1..], more);
      assert ([Concat(lines[1..])] + UnfoldFields(more))[1..] == UnfoldFields(more);
    }
  }

  lemma {:induction false} HeaderFirstLine(text: string, field: Field)
    requires IsHeader(text, field)
    ensures Lines(text)[0] != "" && !IsFolded(Lines(text)[0]) && Lines(text)[0][0] == field.name[0]
  {
    assert field.name[0] in field.name;
  }

  lemma {:induction false} HeadersRead(texts: seq<string>, fields: seq<Field>)
    requires AreHeaders(texts, fields)
    ensures ReadFields(UnfoldFields(AllLines(texts))) == Some(fields)
    ensures texts != [] ==> AllLines(texts) != [] && !IsFolded(AllLines(texts)[0])
  {
    hide ReadField, IsFolded, Lines, IsContinuation, IsFieldName;
    if texts != [] {
      HeadersRead(texts[1..], fields[1..]);
      HeaderFirstLine(texts[0], fields[0]);
      HeaderReads(fields[0]);
      ContinuationsJoin(Lines(texts[0]), AllLines(texts[1..]));
      assert ([Unfolded(texts[0])] + UnfoldFields(AllLines(texts[1..])))[1..] == UnfoldFields(AllLines(texts[1..]));
      assert fields == [fields[0]] + fields[1..];
    }
  }

  lemma {:induction false} HeaderLinesAreFull(texts: seq<string>, fields: seq<Field>)
    requires AreHeaders(texts, fields)
    ensures forall l <- AllLines(texts) :: l != ""
  {
    if texts != [] {
      HeaderFirstLine(texts[0], fields[0]);
      HeaderLinesAreFull(texts[1..], fields[1..]);
      forall l <- Lines(texts[0]) ensures l != "" {
        assert l == Lines(texts[0])[0] || l in Lines(texts[0])[1..];
      }
    }
  }

  lemma {:induction false} HeaderSizeIs(header: seq<string>, body: seq<string>)
    requires forall l <- header :: l != ""
    ensures HeaderSize(header + [""] + body) == |header|
  {
    if header == [] {
      assert header + [""] + body == [""] + body;
    } else {
      assert header[0] in header && forall l <- header[1..] :: l in header;
      assert (header + [""] + body)[1..] == header[1..] + [""] + body;
      HeaderSizeIs(header[1..], body);
    }
  }

  /** The lines of an entity with these headers and this body. */
  function EntityLines(texts: seq<string>, body: seq<string>): seq<string> {
    AllLines(texts) + [""] + body
  }

  lemma {:induction false} EntityParses(texts: seq<string>, fields: seq<Field>, body: seq<string>)
    requires AreHeaders(texts, fields)
    ensures ParseEntity(EntityLines(texts, body)) == ParseBody(fields, body)
  {
    hide ParseBody, ReadFields, UnfoldFields;
    HeaderLinesAreFull(texts, fields);
    HeaderSizeIs(AllLines(texts), body);
    HeadersRead(texts, fields);
    var lines := EntityLines(texts, body);
    assert lines[..|AllLines(texts)|] == AllLines(texts);
    assert lines[|AllLines(texts)| + 1..] == body;
  }

  /** The lines of a multipart body. */
  function Wrapped(boundary: string, parts: seq<seq<string>>): seq<string> {
    if parts == [] then [Closing(boundary), ""] else [Opening(boundary)] + parts[0] + Wrapped(boundary, parts[1..])
  }

  /** No line could be taken for a boundary line, whatever follows the boundary in it. */
  predicate KeepsClear(lines: seq<string>, boundary: string) {
    forall l <- lines :: !(Opening(boundary) <= l)
  }

  lemma {:induction false} UntilSkips(lines: seq<string>, more: seq<string>, boundary: string)
    requires KeepsClear(lines, boundary)
    ensures Until(lines + more, boundary) == |lines| + Until(more, boundary)
  {
    if lines == [] {
      assert lines + more == more;
    } else {
      assert lines[0] in lines;
      forall l <- lines[1..] ensures !(Opening(boundary) <= l) {
        assert l in lines;
      }
      assert (lines + more)[1..] == lines[1..] + more;
      UntilSkips(lines[1..], more, boundary);
    }
  }

  lemma {:induction false} WrappedStartsAtABoundary(boundary: string, parts: seq<seq<string>>)
    ensures var w := Wrapped(boundary, parts);
            Until(w, boundary) == 0 && w != [] && (parts == [] ==> w[0] == Closing(boundary))
  {
  }

  lemma {:induction false} SplitStep(lines: seq<string>, rest: seq<string>, size: nat, boundary: string)
    requires lines != [] && lines[0] == Opening(boundary) && rest == lines[1..]
    requires size == Until(rest, boundary) < |rest|
    requires SplitParts(rest[size..], boundary).Some?
    ensures SplitParts(lines, boundary) == Some([rest[..size]] + SplitParts(rest[size..], boundary).value)
  {
    assert |Opening(boundary)| < |Closing(boundary)|;
    assert Until(lines, boundary) == 0;
    hide Opening, Closing, Until;
  }

  lemma {:induction false} HeadAndHalves(head: string, part: seq<string>, more: seq<string>)
    ensures var lines := [head] + part + more; lines[0] == head && lines[1..] == part + more
    ensures (part + more)[..|part|] == part && (part + more)[|part|..] == more
  {
  }

  lemma {:induction false} PartSplits(boundary: string, part: seq<string>, more: seq<string>)
    requires KeepsClear(part, boundary) && Until(more, boundary) == 0 && more != []
    requires SplitParts(more, boundary).Some?
    ensures SplitParts([Opening(boundary)] + part + more, boundary)
         == Some([part] + SplitParts(more, boundary).value)
  {
    UntilSkips(part, more, boundary);
    hide KeepsClear, SplitParts, Until, Opening, Closing;
    var lines := [Opening(boundary)] + part + more;
    HeadAndHalves(Opening(boundary), part, more);
    SplitStep(lines, part + more, |part|, boundary);
  }

  lemma {:induction false} PartsSplit(boundary: string, parts: seq<seq<string>>)
    requires forall p <- parts :: KeepsClear(p, boundary)
    ensures SplitParts(Wrapped(boundary, parts), boundary) == Some(parts)
  {
    hide KeepsClear, Until, SplitParts;
    WrappedStartsAtABoundary(boundary, parts);
    if parts == [] {
      NoParts(boundary, Wrapped(boundary, []));
    } else {
      var more := Wrapped(boundary, parts[1..]);
      PartsSplit(boundary, parts[1..]);
      WrappedStartsAtABoundary(boundary, parts[1..]);
      PartSplits(boundary, parts[0], more);
      assert parts == [parts[0]] + parts[1..];
    }
  }

  lemma {:induction false} NoParts(boundary: string, lines: seq<string>)
    requires lines != [] && lines[0] == Closing(boundary)
    ensures SplitParts(lines, boundary) == Some([])
  {
  }
}
