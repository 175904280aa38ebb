/** How the two usual ways of writing a recipient are read: a bare address, and a name with the address in brackets. */
module RecipientForms {
  import opened Basics
  import opened Strings
  import opened Text
  import opened Recipients
  import opened Addresses
  import opened RecipientList

  // ---- A bare address ----

  lemma {:induction false} JoinedIsAddress(local: string, domain: string)
    requires IsLocalPart(local) && IsDomain(domain)
    ensures var address := local + "@" + domain;
            IsAddress(address) && LowercaseDomain(address) == local + "@" + Lower(domain)
  {
    NoAtInDomain(domain);
    hide IsDomain, IsLocalPart, Lower, LastIndexOf;
    JoinedAddress(local, domain);
  }

  lemma {:induction false} NoBracketToMatch(raw: string)
    requires '<' !in raw
    ensures MatchNamed(raw) == None
  {
  }

  lemma {:induction false} PlainHasNoMark(s: string, c: char)
    requires IsPlain(s) && c in s
    ensures !IsMark(c) && !IsControl(c)
  {
  }

  lemma {:induction false} AddressAloneReads(raw: string)
    requires IsAddress(raw) && |raw| <= MAX_ADDRESS_CHARS
    ensures Trim(raw) == raw && ParseRecipient(raw) == Ok(Recipient("", LowercaseDomain(raw)))
  {
    AddressIsPlain(raw);
    Trimmed(raw);
    PlainWidth(raw);
    PlainHasNoControl(raw);
    if '<' in raw {
      PlainHasNoMark(raw, '<');
    }
    NoBracketToMatch(raw);
    hide Trim, TrimEnd, IsSpace, Width, MatchNamed, HasControlCharacter, IsAddress, LowercaseDomain, IsPlain;
  }

  /** What is read depends on nothing outside the trimmed text. */
  lemma {:induction false} OuterSpaceIsIgnored(before: string, raw: string, after: string)
    requires IsAllSpace(before) && IsAllSpace(after)
    ensures ParseRecipient(before + raw + after) == ParseRecipient(raw)
  {
    TrimIgnoresOuterSpace(before, raw, after);
    hide Trim, MatchNamed, Unquoted, HasControlCharacter, IsAddress, LowercaseDomain, IsAllSpace;
  }

  /** A valid address of at most 254 characters is a recipient without a name, its domain in lower case. */
  lemma {:induction false} BareAddressReads(before: string, local: string, domain: string, after: string)
    requires IsAllSpace(before) && IsAllSpace(after)
    requires IsLocalPart(local) && IsDomain(domain) && |local| + 1 + |domain| <= MAX_ADDRESS_CHARS
    ensures ParseRecipient(before + (local + "@" + domain) + after) == Ok(Recipient("", local + "@" + Lower(domain)))
  {
    hide ParseRecipient, IsAllSpace, IsLocalPart, IsDomain, IsAddress, LowercaseDomain, Lower;
    JoinedIsAddress(local, domain);
    OuterSpaceIsIgnored(before, local + "@" + domain, after);
    AddressAloneReads(local + "@" + domain);
  }

  predicate IsBare(input: string, local: string, domain: string) {
    && IsLocalPart(local) && IsDomain(domain) && |local| + 1 + |domain| <= MAX_ADDRESS_CHARS
    && Trim(input) == local + "@" + domain
  }

  lemma {:induction false} AddressParts(address: string) returns (local: string, domain: string)
    requires IsAddress(address)
    ensures IsLocalPart(local) && IsDomain(domain) && address == local + "@" + domain
  {
    var at := LastIndexOf(address, '@');
    local, domain := address[..at], address[at + 1..];
  }

  lemma {:induction false} BareAcceptedIs(input: string)
    requires '<' !in input && ParseRecipient(input).Ok?
    ensures IsAddress(Trim(input)) && |Trim(input)| <= MAX_ADDRESS_CHARS
    ensures ParseRecipient(input) == Ok(Recipient("", LowercaseDomain(Trim(input))))
  {
    TrimIsPart(input);
    NoBracketToMatch(Trim(input));
    TrimIsIdempotent(input);
    hide Trim, MatchNamed, HasControlCharacter, IsAddress, LowercaseDomain;
    AddressIsPlain(Trim(input));
    PlainWidth(Trim(input));
  }

  /** Text without a bracket is accepted exactly when it is such an address, white space around it aside. */
  lemma {:induction false} BareAddressExactly(input: string)
    requires '<' !in input
    ensures ParseRecipient(input).Ok? <==> exists local, domain :: IsBare(input, local, domain)
    ensures forall local, domain :: IsBare(input, local, domain) ==>
              ParseRecipient(input) == Ok(Recipient("", local + "@" + Lower(domain)))
  {
    hide ParseRecipient, IsAddress, LowercaseDomain, IsLocalPart, IsDomain, Trim, Lower;
    if ParseRecipient(input).Ok? {
      BareAcceptedIs(input);
      var local, domain := AddressParts(Trim(input));
      assert IsBare(input, local, domain);
    }
    forall local, domain | IsBare(input, local, domain)
      ensures ParseRecipient(input) == Ok(Recipient("", local + "@" + Lower(domain)))
    {
      var before, after := TrimSplits(input);
      BareAddressReads(before, local, domain, after);
    }
  }

  // ---- What is an address, and what is said of anything else ----

  predicate IsLetter(c: char) {
    'A' <= c <= 'Z' || 'a' <= c <= 'z'
  }

  predicate IsAddressSymbol(c: char) {
    c in "!#$%&'*+/=?^_`{|}~-"
  }

  /** A local part is atoms with dots between them, an atom letters, digits and these symbols. */
  lemma {:induction false} LocalPartIs(first: string, rest: string)
    requires '.' !in first
    ensures IsLocalPart(first) <==> IsAtom(first)
    ensures IsLocalPart(first + "." + rest) <==> IsAtom(first) && IsLocalPart(rest)
    ensures IsAtom(first) <==> first != "" && forall c <- first :: IsLetter(c) || '0' <= c <= '9' || IsAddressSymbol(c)
  {
    SplitOne(first, '.');
    SplitPiece(first, rest, '.');
    assert first + "." + rest == first + ['.'] + rest;
    assert forall c :: IsAtomChar(c) <==> IsLetter(c) || '0' <= c <= '9' || IsAddressSymbol(c);
    hide IsAtomChar, Split, IsLetter, IsAddressSymbol;
  }

  lemma {:induction false} LabelsAfter(first: string, more: seq<string>)
    requires more != []
    ensures AreLabels([first] + more) <==> IsLabel(first) && (AreLabels(more) || (|more| == 1 && IsTopLevel(more[0])))
  {
    var parts := [first] + more;
    hide IsLabel, IsTopLevel;
    assert forall i :: 0 <= i < |more| ==> parts[i + 1] == more[i];
    assert parts[|parts| - 1] == more[|more| - 1];
    if AreLabels(more) && IsLabel(first) {
      forall i | 0 <= i < |parts| - 1 ensures IsLabel(parts[i]) {
        assert i > 0 ==> parts[i] == more[i - 1];
      }
    }
    if AreLabels(parts) {
      assert IsLabel(parts[0]);
      forall i | 0 <= i < |more| - 1 ensures IsLabel(more[i]) {
        assert IsLabel(parts[i + 1]);
      }
    }
  }

  predicate AreLabels(labels: seq<string>) {
    && |labels| >= 2
    && (forall i :: 0 <= i < |labels| - 1 ==> IsLabel(labels[i]))
    && IsTopLevel(labels[|labels| - 1])
  }

  /** A domain is one label or more, each with a dot after it, and a top level of two letters or more. */
  lemma {:induction false} DomainIs(first: string, rest: string)
    requires '.' !in first
    ensures !IsDomain(first)
    ensures IsDomain(first + "." + rest) <==> IsLabel(first) && (IsDomain(rest) || ('.' !in rest && IsTopLevel(rest)))
    ensures IsTopLevel(rest) <==> |rest| >= 2 && forall c <- rest :: IsLetter(c)
  {
    SplitOne(first, '.');
    SplitPiece(first, rest, '.');
    if '.' !in rest {
      SplitOne(rest, '.');
    } else {
      DottedHasTwoPieces(rest);
    }
    assert first + "." + rest == first + ['.'] + rest;
    LabelsAfter(first, Split(rest, '.'));
    assert forall i :: 0 <= i < |rest| ==> rest[i] in rest;
    assert IsDomain(rest) <==> AreLabels(Split(rest, '.'));
    hide IsLabel, Split;
  }

  /** A label is letters, digits and hyphens, with no hyphen at either end. */
  lemma {:induction false} LabelIs(s: string)
    ensures IsLabel(s)
       <==> && s != "" && s[0] != '-' && s[|s| - 1] != '-'
            && forall c <- s :: IsLetter(c) || '0' <= c <= '9' || c == '-'
  {
    assert forall i :: 0 <= i < |s| ==> s[i] in s;
    assert forall c :: IsAlphanumeric(c) <==> IsLetter(c) || '0' <= c <= '9';
    hide IsAlphanumeric, IsLetter;
  }

  lemma {:induction false} DottedHasTwoPieces(s: string)
    requires '.' in s
    ensures |Split(s, '.')| >= 2
  {
    if s[0] != '.' {
      assert '.' in s[1..];
      DottedHasTwoPieces(s[1..]);
    }
  }

  /** The reasons, in the order in which they are looked for. */
  lemma {:induction false} RefusalsAre(input: string)
    ensures var raw := Trim(input);
            var controlled := exists c <- raw :: c as int <= 0x1F || c as int in {0x7F, 0x2028, 0x2029};
            && (ParseRecipient(input) == Err(NoAddress) <==> raw == "")
            && (ParseRecipient(input) == Err(ControlCharacter) <==> controlled)
            && ('<' !in raw ==> (ParseRecipient(input) == Err(TooLong) <==> !controlled && Width(raw) > 254))
  {
    assert forall c :: IsControl(c) <==> c as int <= 0x1F || c as int in {0x7F, 0x2028, 0x2029};
    TrimIsIdempotent(input);
    NoWidth();
    if '<' !in Trim(input) {
      NoBracketToMatch(Trim(input));
    }
    hide Trim, IsAddress, Unquoted, MatchNamed, Width, IsControl;
  }

  lemma NoWidth()
    ensures Width("") == 0
  {
  }

  // ---- A name, and the address in brackets ----

  /** A name that fits: some text of at most 80 units, without control characters or outer white space. */
  predicate IsTypedName(name: string) {
    && name != "" && !IsSpace(name[0]) && !IsSpace(name[|name| - 1])
    && Width(name) <= 80 && !HasControlCharacter(name)
  }

  function InBrackets(name: string, gap: string, inside: string): string {
    name + gap + "<" + inside + ">"
  }

  lemma {:induction false} BracketsAreFound(name: string, gap: string, inside: string)
    requires IsTypedName(name) && IsAllSpace(gap)
    requires inside != "" && '<' !in inside && '>' !in inside
    ensures MatchNamed(InBrackets(name, gap, inside)) == Some(Named(name, inside))
  {
    var raw := InBrackets(name, gap, inside);
    assert raw == (name + gap) + ['<'] + (inside + ">");
    LastIndexIs(name + gap, '<', inside + ">");
    assert raw[..|name + gap|] == name + gap;
    assert raw[|name + gap| + 1..|raw| - 1] == inside;
    TrimEndDrops(name, gap);
    hide TrimEnd, IsSpace, Width, HasControlCharacter, LastIndexOf, IsAllSpace;
  }

  lemma {:induction false} NoControlAppend(a: string, b: string)
    ensures HasControlCharacter(a + b) <==> HasControlCharacter(a) || HasControlCharacter(b)
  {
    hide IsControl;
    assert forall c <- a :: c in a + b;
    assert forall c <- b :: c in a + b;
  }

  lemma {:induction false} InBracketsIsClean(name: string, gap: string, inside: string)
    requires IsTypedName(name) && !HasControlCharacter(gap) && !HasControlCharacter(inside)
    ensures var raw := InBrackets(name, gap, inside); raw != "" && Trim(raw) == raw && !HasControlCharacter(raw)
  {
    var raw := InBrackets(name, gap, inside);
    assert raw[0] == name[0] && raw[|raw| - 1] == '>' && !IsSpace('>');
    TrimOfTrimmed(raw);
    assert !HasControlCharacter("<") && !HasControlCharacter(">") by { BracketsAreNoControl(); }
    hide IsSpace, Trim, HasControlCharacter;
    NoControlAppend(name, gap);
    NoControlAppend(name + gap, "<");
    NoControlAppend(name + gap + "<", inside);
    NoControlAppend(name + gap + "<" + inside, ">");
  }

  lemma BracketsAreNoControl()
    ensures !HasControlCharacter("<") && !HasControlCharacter(">")
  {
  }

  lemma {:induction false} BlankOrPlain(before: string, address: string, after: string)
    requires IsAllSpace(before) && IsAllSpace(after) && IsPlain(address)
    requires !HasControlCharacter(before) && !HasControlCharacter(after)
    ensures var inside := before + address + after;
            '<' !in inside && '>' !in inside && !HasControlCharacter(inside)
  {
    assert !IsSpace('<') && !IsSpace('>');
    PlainHasNoControl(address);
    hide IsSpace, HasControlCharacter;
    NoControlAppend(before, address);
    NoControlAppend(before + address, after);
  }

  lemma {:induction false} NamedIsAccepted(raw: string, name: string, inside: string, address: string)
    requires raw != "" && Trim(raw) == raw && !HasControlCharacter(raw)
    requires MatchNamed(raw) == Some(Named(name, inside)) && Trim(name) == name && Trim(inside) == address
    requires IsAddress(address) && Width(address) <= MAX_ADDRESS_CHARS
    ensures ParseRecipient(raw) == Ok(Recipient(Unquoted(name), LowercaseDomain(address)))
  {
    hide IsAddress, LowercaseDomain, Trim, HasControlCharacter, MatchNamed, Unquoted, Width;
  }

  /** In whatever script the name is and however it is spaced; a name in quotes loses them. */
  lemma {:induction false} NamedAddressReads(
      name: string, gap: string, before: string, local: string, domain: string, after: string)
    requires IsTypedName(name) && IsAllSpace(gap) && IsAllSpace(before) && IsAllSpace(after)
    requires !HasControlCharacter(gap) && !HasControlCharacter(before) && !HasControlCharacter(after)
    requires IsLocalPart(local) && IsDomain(domain) && |local| + 1 + |domain| <= MAX_ADDRESS_CHARS
    ensures var typed := InBrackets(name, gap, before + (local + "@" + domain) + after);
            ParseRecipient(typed) == Ok(Recipient(Unquoted(name), local + "@" + Lower(domain)))
  {
    var address := local + "@" + domain;
    var inside := before + address + after;
    JoinedIsAddress(local, domain);
    AddressIsPlain(address);
    PlainWidth(address);
    BlankOrPlain(before, address, after);
    TrimBetween(before, address, after);
    BracketsAreFound(name, gap, inside);
    InBracketsIsClean(name, gap, inside);
    TrimOfTrimmed(name);
    hide IsAddress, IsLocalPart, IsDomain, LowercaseDomain, Lower, Trim, HasControlCharacter, MatchNamed, Unquoted,
         Width, IsSpace, IsPlain, IsAllSpace, InBrackets, ParseRecipient;
    NamedIsAccepted(InBrackets(name, gap, inside), name, inside, address);
  }

  /** A longer name is not taken for one, and the text as a whole is no address. */
  lemma {:induction false} LongNameIsRefused(name: string, inside: string)
    requires name != "" && !IsSpace(name[0]) && !IsSpace(name[|name| - 1]) && Width(name) > 80
    requires '<' !in inside
    ensures ParseRecipient(InBrackets(name, "", inside)).Err?
  {
    var raw := InBrackets(name, "", inside);
    assert raw == name + ['<'] + (inside + ">");
    LastIndexIs(name, '<', inside + ">");
    assert raw[..|name|] == name && TrimEnd(name) == name;
    assert raw[0] == name[0] && raw[|raw| - 1] == '>' && !IsSpace('>');
    TrimOfTrimmed(raw);
    assert raw[|name|] == '<';
    hide IsSpace, TrimEnd, Trim, Width, IsAddress, HasControlCharacter, LastIndexOf;
    if IsAddress(raw) {
      AddressIsPlain(raw);
    }
  }

  /** Quotes around a name go, and any others stay. */
  lemma {:induction false} QuotesAreDropped(name: string)
    requires name != ""
    ensures Unquoted("\"" + name + "\"") == name
    ensures name[0] != '"' && name[|name| - 1] != '"' ==> Unquoted(name) == name
  {
    var quoted := "\"" + name + "\"";
    assert quoted[1..] == name + "\"" && (name + "\"")[..|name|] == name;
  }

  // ---- A list of bare addresses ----

  /** An address as it stands in a list. */
  datatype Typed = Typed(before: string, local: string, domain: string, after: string)

  predicate IsBlankInLine(s: string) {
    IsAllSpace(s) && !HasControlCharacter(s)
  }

  predicate IsTypedAddress(t: Typed) {
    && IsBlankInLine(t.before) && IsBlankInLine(t.after)
    && IsLocalPart(t.local) && IsDomain(t.domain) && |t.local| + 1 + |t.domain| <= MAX_ADDRESS_CHARS
  }

  function TextOf(t: Typed): string {
    t.before + (t.local + "@" + t.domain) + t.after
  }

  function RecipientOf(t: Typed): Recipient {
    Recipient("", t.local + "@" + Lower(t.domain))
  }

  function TextsOf(list: seq<Typed>): (texts: seq<string>)
    ensures |texts| == |list| && forall i :: 0 <= i < |list| ==> texts[i] == TextOf(list[i])
  {
    seq(|list|, i requires 0 <= i < |list| => TextOf(list[i]))
  }

  function RecipientsOf(list: seq<Typed>): (recipients: seq<Recipient>)
    ensures |recipients| == |list| && forall i :: 0 <= i < |list| ==> recipients[i] == RecipientOf(list[i])
  {
    seq(|list|, i requires 0 <= i < |list| => RecipientOf(list[i]))
  }

  predicate IsInert(c: char) {
    !IsMark(c) && !IsSeparator(c) && !IsControl(c)
  }

  lemma AddressCharsAreInert()
    ensures forall c :: IsAtomChar(c) ==> IsInert(c)
    ensures forall c :: IsDomainChar(c) ==> IsInert(c)
    ensures IsInert('@') && IsInert('.')
  {
  }

  lemma {:induction false} LocalAndDomainChars(local: string, domain: string)
    requires IsLocalPart(local) && IsDomain(domain)
    ensures forall c <- local + "@" + domain :: IsInert(c)
  {
    LocalChars(local);
    DomainChars(domain);
    AddressCharsAreInert();
    hide IsLocalPart, IsDomain, IsInert, IsAtomChar, IsDomainChar;
    var s := local + "@" + domain;
    forall c <- s ensures IsInert(c) {
      var k :| 0 <= k < |s| && s[k] == c;
      assert k < |local| ==> s[k] == local[k];
      assert k > |local| ==> s[k] == domain[k - |local| - 1];
    }
  }

  lemma BlankIsPlain()
    ensures forall c :: IsSpace(c) ==> !IsMark(c) && !IsSeparator(c)
  {
  }

  lemma {:induction false} TypedIsClosed(t: Typed)
    requires IsTypedAddress(t)
    ensures IsClosed(TextOf(t)) && !HasControlCharacter(TextOf(t))
  {
    LocalAndDomainChars(t.local, t.domain);
    BlankIsPlain();
    hide IsLocalPart, IsDomain, IsSpace, IsMark, IsSeparator, IsControl, IsClosed;
    assert forall c <- t.local + "@" + t.domain :: IsInert(c);
    PlainIsClosed(TextOf(t));
  }

  lemma {:induction false} TypedReads(t: Typed)
    requires IsTypedAddress(t)
    ensures ParseRecipient(TextOf(t)) == Ok(RecipientOf(t)) && Trim(TextOf(t)) != ""
  {
    hide IsLocalPart, IsDomain, ParseRecipient, Trim, Lower, IsAllSpace, HasControlCharacter;
    BareAddressReads(t.before, t.local, t.domain, t.after);
    BlankIsRefused(TextOf(t));
  }

  lemma BlankIsRefused(input: string)
    ensures Trim(input) == "" ==> ParseRecipient(input).Err?
  {
  }

  lemma {:induction false} InterleavedIsClean(pieces: seq<string>, separators: string)
    requires |pieces| == |separators| + 1
    requires forall p <- pieces :: !HasControlCharacter(p)
    requires forall i :: 0 <= i < |separators| ==> IsSeparator(separators[i])
    ensures !HasControlCharacter(Interleaved(pieces, separators))
    decreases |pieces|
  {
    var n := |pieces| - 1;
    assert pieces[n] in pieces;
    if separators != "" {
      assert !HasControlCharacter([separators[n - 1]]);
      hide HasControlCharacter;
      InterleavedIsClean(pieces[..n], separators[..n - 1]);
      NoControlAppend(Interleaved(pieces[..n], separators[..n - 1]), [separators[n - 1]]);
      NoControlAppend(Interleaved(pieces[..n], separators[..n - 1]) + [separators[n - 1]], pieces[n]);
    }
  }

  lemma {:induction false} InterleavedEnds(pieces: seq<string>, separators: string)
    requires |pieces| == |separators| + 1 && pieces[0] != "" && pieces[|pieces| - 1] != ""
    ensures var s, last := Interleaved(pieces, separators), pieces[|pieces| - 1];
            s != "" && s[0] == pieces[0][0] && s[|s| - 1] == last[|last| - 1]
    decreases |pieces|
  {
    if separators != "" {
      var n := |pieces| - 1;
      InterleavedStarts(pieces[..n], separators[..n - 1]);
    }
  }

  lemma {:induction false} InterleavedStarts(pieces: seq<string>, separators: string)
    requires |pieces| == |separators| + 1 && pieces[0] != ""
    ensures var s := Interleaved(pieces, separators); s != "" && s[0] == pieces[0][0]
    decreases |pieces|
  {
    if separators != "" {
      InterleavedStarts(pieces[..|pieces| - 1], separators[..|pieces| - 2]);
    }
  }

  lemma {:induction false} NoneAreBlank(pieces: seq<string>)
    requires forall p <- pieces :: Trim(p) != ""
    ensures NonBlank(pieces) == pieces
  {
    hide Trim;
    if pieces != [] {
      NoneAreBlank(pieces[..|pieces| - 1]);
      assert pieces[|pieces| - 1] in pieces;
    }
  }

  lemma {:induction false} AllAreChosen(parts: seq<string>, recipients: seq<Recipient>)
    requires |recipients| == |parts| && AreDistinct(recipients)
    requires forall i :: 0 <= i < |parts| ==> ParseRecipient(parts[i]) == Ok(recipients[i])
    ensures AllAccepted(parts) && Chosen(parts) == recipients
    decreases |parts|
  {
    hide ParseRecipient, KeyOf;
    if parts != [] {
      var n := |parts| - 1;
      AllAreChosen(parts[..n], recipients[..n]);
      assert forall i :: 0 <= i < n ==> recipients[..n][i] == recipients[i];
      assert recipients == recipients[..n] + [recipients[n]];
    }
  }

  /**
   * Bare addresses of different people, with commas or semicolons and any white space between
   * them, are accepted as they stand if they are not too many, and refused if they are.
   */
  lemma {:induction false} BareListReads(before: string, list: seq<Typed>, separators: string, after: string, max: nat)
    requires IsAllSpace(before) && IsAllSpace(after) && |list| == |separators| + 1
    requires forall t <- list :: IsTypedAddress(t)
    requires list[0].before == "" && list[|list| - 1].after == ""
    requires forall i :: 0 <= i < |separators| ==> separators[i] == ',' || separators[i] == ';'
    requires AreDistinct(RecipientsOf(list))
    ensures ParseList(before + Interleaved(TextsOf(list), separators) + after, max)
         == if |list| <= max then Ok(RecipientsOf(list)) else Err(TooMany)
  {
    var texts := TextsOf(list);
    var joined := Interleaved(texts, separators);
    SeparatorsAre(separators);
    hide ParseRecipient, AreDistinct, IsTypedAddress, HasControlCharacter, IsClosed, TextsOf, RecipientsOf, RecipientOf,
         TextOf, Interleaved, IsSeparator, IsAllSpace, Trim, Pieces, NonBlank, Chosen;
    forall i | 0 <= i < |list|
      ensures IsClosed(texts[i]) && !HasControlCharacter(texts[i]) && Trim(texts[i]) != ""
      ensures ParseRecipient(texts[i]) == Ok(RecipientsOf(list)[i])
    {
      assert list[i] in list;
      TypedIsClosed(list[i]);
      TypedReads(list[i]);
    }
    SplitUndoesJoin(texts, separators);
    InterleavedIsClean(texts, separators);
    NoneAreBlank(texts);
    ListIsTrimmed(list, separators);
    TrimBetween(before, joined, after);
    AllAreChosen(texts, RecipientsOf(list));
  }

  lemma SeparatorsAre(s: string)
    requires forall i :: 0 <= i < |s| ==> s[i] == ',' || s[i] == ';'
    ensures forall i :: 0 <= i < |s| ==> IsSeparator(s[i])
  {
  }

  lemma {:induction false} ListIsTrimmed(list: seq<Typed>, separators: string)
    requires |list| == |separators| + 1 && forall t <- list :: IsTypedAddress(t)
    requires list[0].before == "" && list[|list| - 1].after == ""
    ensures var s := Interleaved(TextsOf(list), separators); s != "" && !IsSpace(s[0]) && !IsSpace(s[|s| - 1])
  {
    assert list[0] in list && list[|list| - 1] in list;
    TextEnds(list[0]);
    TextEnds(list[|list| - 1]);
    hide IsSpace, Interleaved, TextOf, IsTypedAddress;
    InterleavedEnds(TextsOf(list), separators);
  }

  lemma {:induction false} TextEnds(t: Typed)
    requires IsTypedAddress(t)
    ensures var s := TextOf(t);
            && s != "" && (t.before == "" ==> !IsSpace(s[0])) && (t.after == "" ==> !IsSpace(s[|s| - 1]))
  {
    var address, s := t.local + "@" + t.domain, TextOf(t);
    hide IsSpace, IsLocalPart, IsDomain, IsAddress, LowercaseDomain, IsBlankInLine;
    JoinedIsAddress(t.local, t.domain);
    AddressIsPlain(address);
    assert t.before == "" ==> s[0] == address[0];
    assert t.after == "" ==> s[|s| - 1] == address[|address| - 1];
  }
}
