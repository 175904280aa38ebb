/** What the recipient parser accepts is canonical, and is read back from the header it is put in. */
module Addresses {
  import opened Basics
  import opened Strings
  import opened Text
  import opened Recipients
  import Composer

  // ---- Lower-casing a domain ----

  lemma {:induction false} LowerDot(c: char)
    ensures LowerChar(c) == '.' <==> c == '.'
  {
  }

  lemma {:induction false} LowerFirst(c: char, s: string)
    ensures Lower([c] + s) == [LowerChar(c)] + Lower(s)
  {
    hide LowerChar;
    assert ([c] + s)[1..] == s;
  }

  lemma {:induction false} SplitFirst(c: char, s: string)
    ensures var rest := Split(s, '.');
            Split([c] + s, '.') == if c == '.' then [""] + rest else [[c] + rest[0]] + rest[1..]
  {
    assert ([c] + s)[1..] == s;
  }

  lemma {:induction false} SplitLower(s: string)
    ensures var a, b := Split(Lower(s), '.'), Split(s, '.');
            |a| == |b| && forall i :: 0 <= i < |a| ==> a[i] == Lower(b[i])
  {
    hide Lower, LowerChar;
    assert Lower("") == "";
    if s != "" {
      var c, rest := s[0], s[1..];
      SplitLower(rest);
      hide Split;
      LowerFirst(c, rest);
      LowerDot(c);
      assert s == [c] + rest;
      SplitFirst(c, rest);
      SplitFirst(LowerChar(c), Lower(rest));
      LowerFirst(c, Split(rest, '.')[0]);
    }
  }

  lemma {:induction false} LowerLabel(s: string)
    ensures IsLabel(s) ==> IsLabel(Lower(s))
    ensures IsTopLevel(s) ==> IsTopLevel(Lower(s))
  {
  }

  lemma {:induction false} LowerDomain(s: string)
    requires IsDomain(s)
    ensures IsDomain(Lower(s))
  {
    SplitLower(s);
    var a, b := Split(Lower(s), '.'), Split(s, '.');
    hide IsLabel, IsTopLevel, Lower, Split;
    forall i | 0 <= i < |a| - 1 ensures IsLabel(a[i]) {
      LowerLabel(b[i]);
    }
    LowerLabel(b[|b| - 1]);
  }

  predicate IsDomainChar(c: char) {
    IsAlphanumeric(c) || c == '-' || c == '.'
  }

  lemma {:induction false} SplitKeeps(s: string, k: nat)
    requires k < |s| && s[k] != '.'
    ensures exists p <- Split(s, '.') :: s[k] in p
  {
    var parts, rest := Split(s, '.'), Split(s[1..], '.');
    if k == 0 {
      assert s[0] in parts[0];
    } else {
      SplitKeeps(s[1..], k - 1);
      var j :| 0 <= j < |rest| && s[k] in rest[j];
      if s[0] == '.' {
        assert parts[j + 1] == rest[j];
      } else if j == 0 {
        assert s[k] in parts[0];
      } else {
        assert parts[j] == rest[j];
      }
    }
  }

  lemma {:induction false} DomainChars(s: string)
    requires IsDomain(s)
    ensures forall k :: 0 <= k < |s| ==> IsDomainChar(s[k])
  {
    var labels := Split(s, '.');
    forall k | 0 <= k < |s| ensures IsDomainChar(s[k]) {
      if s[k] != '.' {
        SplitKeeps(s, k);
        var j :| 0 <= j < |labels| && s[k] in labels[j];
        LabelChars(labels[j], s[k], j == |labels| - 1);
      }
    }
  }

  lemma {:induction false} LabelChars(s: string, c: char, last: bool)
    requires c in s && (if last then IsTopLevel(s) else IsLabel(s))
    ensures IsDomainChar(c)
  {
    var k :| 0 <= k < |s| && s[k] == c;
  }

  lemma {:induction false} LocalChars(s: string)
    requires IsLocalPart(s)
    ensures forall k :: 0 <= k < |s| ==> IsAtomChar(s[k]) || s[k] == '.'
  {
    hide IsAtomChar;
    forall k | 0 <= k < |s| ensures IsAtomChar(s[k]) || s[k] == '.' {
      if s[k] != '.' {
        SplitKeeps(s, k);
        var p :| p in Split(s, '.') && s[k] in p;
        assert IsAtom(p);
      }
    }
  }

  lemma {:induction false} LastIndexIs(s: string, c: char, t: string)
    requires c !in t
    ensures LastIndexOf(s + [c] + t, c) == |s|
  {
    if t == "" {
      assert s + [c] + t == s + [c];
    } else {
      assert t[|t| - 1] in t;
      assert (s + [c] + t)[..|s + [c] + t| - 1] == s + [c] + t[..|t| - 1];
      LastIndexIs(s, c, t[..|t| - 1]);
    }
  }

  predicate IsCanonical(address: string) {
    IsAddress(address) && LowercaseDomain(address) == address
  }

  lemma {:induction false} JoinedAddress(local: string, domain: string)
    requires '@' !in domain
    ensures var s := local + "@" + domain;
            LastIndexOf(s, '@') == |local| && s[..|local|] == local && s[|local| + 1..] == domain
  {
    assert local + "@" + domain == local + ['@'] + domain;
    LastIndexIs(local, '@', domain);
  }

  lemma {:induction false} LowerTwice(s: string)
    ensures Lower(Lower(s)) == Lower(s)
  {
  }

  lemma {:induction false} PartsAreCanonical(local: string, domain: string)
    requires IsLocalPart(local) && IsDomain(domain) && Lower(domain) == domain
    ensures IsCanonical(local + "@" + domain)
  {
    NoAtInDomain(domain);
    hide IsDomain, IsLocalPart, Lower, LastIndexOf;
    JoinedAddress(local, domain);
  }

  lemma {:induction false} LowercaseIsCanonical(address: string)
    requires IsAddress(address)
    ensures IsCanonical(LowercaseDomain(address))
  {
    hide IsDomain, IsLocalPart, Lower, LastIndexOf, IsCanonical;
    var at := LastIndexOf(address, '@');
    LowerDomain(address[at + 1..]);
    LowerTwice(address[at + 1..]);
    PartsAreCanonical(address[..at], Lower(address[at + 1..]));
  }

  lemma {:induction false} NoAtInDomain(domain: string)
    requires IsDomain(domain)
    ensures '@' !in domain
  {
    DomainChars(domain);
    hide IsDomain;
  }

  /** Every accepted address is valid, with its domain in lower case. */
  lemma {:induction false} AcceptedIsCanonical(input: string)
    ensures ParseRecipient(input).Ok? ==> IsCanonical(ParseRecipient(input).value.address)
  {
    hide IsAddress, IsCanonical, LowercaseDomain, MatchNamed, Unquoted, HasControlCharacter, Trim, Width;
    if ParseRecipient(input).Ok? {
      var raw := Trim(input);
      var named := MatchNamed(raw);
      LowercaseIsCanonical(Trim(if named.Some? then named.value.address else raw));
    }
  }

  // ---- Reading a formatted address ----

  /** Printable ASCII without quotes and angle brackets. */
  predicate IsPlain(s: string) {
    forall k :: 0 <= k < |s| ==> ' ' <= s[k] <= '~' && s[k] != '"' && s[k] != '<' && s[k] != '>'
  }

  lemma {:induction false} AddressIsPlain(address: string)
    requires IsAddress(address)
    ensures IsPlain(address) && address != "" && !IsSpace(address[0]) && !IsSpace(address[|address| - 1])
  {
    var at := LastIndexOf(address, '@');
    var local, domain := address[..at], address[at + 1..];
    LocalChars(local);
    DomainChars(domain);
    DomainIsSome(domain);
    LocalIsSome(local);
    assert forall k :: 0 <= k < |local| ==> local[k] == address[k];
    assert forall k :: 0 <= k < |domain| ==> domain[k] == address[at + 1 + k];
    hide IsDomain, IsLocalPart;
    AtomCharsArePlain();
    forall k | 0 <= k < |address|
      ensures '!' <= address[k] <= '~' && address[k] != '"' && address[k] != '<' && address[k] != '>'
    {
      if k > at {
        assert IsDomainChar(domain[k - at - 1]);
      } else if k < at {
        assert IsAtomChar(local[k]) || local[k] == '.';
      }
    }
    assert !IsSpace(address[0]) && !IsSpace(address[|address| - 1]);
  }

  lemma {:induction false} AtomCharsArePlain()
    ensures forall c :: IsAtomChar(c) ==> '!' <= c <= '~' && c != '"' && c != '<' && c != '>'
    ensures forall c :: IsDomainChar(c) ==> '!' <= c <= '~' && c != '"' && c != '<' && c != '>'
  {
  }

  lemma {:induction false} DomainIsSome(s: string)
    requires IsDomain(s)
    ensures s != ""
  {
  }

  lemma {:induction false} LocalIsSome(s: string)
    requires IsLocalPart(s)
    ensures s != ""
  {
    var first := Split(s, '.')[0];
    assert first in Split(s, '.') && IsAtom(first);
  }

  lemma {:induction false} PlainWidth(s: string)
    requires forall k :: 0 <= k < |s| ==> s[k] <= '~'
    ensures Width(s) == |s|
  {
    if s != "" {
      PlainWidth(s[1..]);
    }
  }

  lemma {:induction false} PlainHasNoControl(s: string)
    requires forall k :: 0 <= k < |s| ==> ' ' <= s[k] <= '~'
    ensures !HasControlCharacter(s)
  {
  }

  lemma {:induction false} Trimmed(s: string)
    requires s != "" && !IsSpace(s[0]) && !IsSpace(s[|s| - 1])
    ensures Trim(s) == s && TrimEnd(s + " ") == s
  {
    TrimOfTrimmed(s);
    assert (s + " ")[..|s|] == s && IsSpace(' ');
    assert TrimEnd(s + " ") == TrimEnd(s);
  }

  /** What a name may look like in front of the brackets. */
  predicate IsLead(lead: string) {
    && 0 < |lead| <= MAX_NAME_CHARS && !IsSpace(lead[0]) && !IsSpace(lead[|lead| - 1])
    && forall k :: 0 <= k < |lead| ==> ' ' <= lead[k] <= '~'
  }

  function Bracketed(lead: string, address: string): string {
    lead + " <" + address + ">"
  }

  lemma {:induction false} BracketIndex(lead: string, address: string)
    requires IsPlain(address)
    ensures var raw := Bracketed(lead, address);
            && LastIndexOf(raw, '<') == |lead| + 1 && raw[|raw| - 1] == '>'
            && raw[..|lead| + 1] == lead + " " && raw[|lead| + 2..|raw| - 1] == address
            && '>' !in address
  {
    var raw := Bracketed(lead, address);
    assert raw == (lead + " ") + ['<'] + (address + ">");
    assert '<' !in address + ">";
    LastIndexIs(lead + " ", '<', address + ">");
  }

  lemma {:induction false} BracketsMatch(lead: string, address: string)
    requires IsLead(lead) && IsPlain(address) && address != ""
    ensures MatchNamed(Bracketed(lead, address)) == Some(Named(lead, address))
  {
    BracketIndex(lead, address);
    Trimmed(lead);
    PlainWidth(lead);
    hide Trim, TrimEnd, IsSpace, Width, LastIndexOf, Bracketed, IsPlain;
  }

  lemma {:induction false} BracketedIsClean(lead: string, address: string)
    requires IsLead(lead) && IsPlain(address)
    ensures var raw := Bracketed(lead, address); raw != "" && Trim(raw) == raw && !HasControlCharacter(raw)
  {
    var raw := Bracketed(lead, address);
    assert raw[0] == lead[0] && raw[|raw| - 1] == '>' && !IsSpace('>');
    Trimmed(raw);
    hide Trim, TrimEnd, IsSpace, HasControlCharacter;
    PlainHasNoControl(raw);
  }

  lemma {:induction false} BracketedReads(lead: string, address: string)
    requires IsLead(lead) && IsCanonical(address) && |address| <= MAX_ADDRESS_CHARS
    ensures ParseRecipient(Bracketed(lead, address)) == Ok(Recipient(Unquoted(lead), address))
  {
    AddressIsPlain(address);
    BracketsMatch(lead, address);
    BracketedIsClean(lead, address);
    Trimmed(address);
    Trimmed(lead);
    PlainWidth(address);
    hide Trim, TrimEnd, IsSpace, Width, MatchNamed, HasControlCharacter, IsAddress, LowercaseDomain, Unquoted, IsPlain,
         IsLead, Bracketed;
  }

  lemma {:induction false} SimpleNameIsPlain(name: string)
    requires Composer.IsSimpleName(name)
    ensures IsPlain(name)
  {
    forall k | 0 <= k < |name| ensures ' ' <= name[k] <= '~' && name[k] != '"' && name[k] != '<' && name[k] != '>' {
      assert Composer.IsNameChar(name[k]);
    }
  }

  lemma {:induction false} PlainNameIsLead(name: string)
    requires name != "" && IsPlain(name) && |name| <= MAX_NAME_CHARS - 2
    requires !IsSpace(name[0]) && !IsSpace(name[|name| - 1])
    ensures IsLead(name) && Unquoted(name) == name
  {
    hide IsSpace;
  }

  lemma {:induction false} QuotedNameIsLead(name: string)
    requires name != "" && IsPlain(name) && |name| <= MAX_NAME_CHARS - 2
    ensures var quoted := "\"" + name + "\""; IsLead(quoted) && Unquoted(quoted) == name
  {
    var quoted := "\"" + name + "\"";
    assert !IsSpace('"');
    hide IsSpace;
    assert quoted[1..] == name + "\"" && (name + "\"")[..|name|] == name;
    forall k | 0 <= k < |quoted| ensures ' ' <= quoted[k] <= '~' {
      assert 0 < k < |quoted| - 1 ==> quoted[k] == name[k - 1];
    }
  }

  lemma {:induction false} NameIsLead(name: string)
    requires Composer.IsSimpleName(name) && Trim(name) == name && |name| <= MAX_NAME_CHARS - 2
    ensures var quoted := "\"" + name + "\"";
            name != "" && IsLead(name) && IsLead(quoted) && Unquoted(name) == name && Unquoted(quoted) == name
  {
    hide IsSpace, IsLead, Unquoted, IsPlain, TrimStart, TrimEnd;
    SimpleNameIsPlain(name);
    PlainNameIsLead(name);
    QuotedNameIsLead(name);
  }

  lemma {:induction false} FormatIs(a: Composer.Address)
    requires a.name != "" && Composer.IsSimpleName(a.name)
    requires Trim(a.name) == a.name && Trim(a.address) == a.address
    ensures Composer.FormatAddress(a)
         == Bracketed(if '.' in a.name then "\"" + a.name + "\"" else a.name, a.address)
  {
    hide Trim, Composer.IsSimpleName;
    assert "\"" + a.name + "\" <" + a.address + ">" == "\"" + a.name + "\"" + " <" + a.address + ">";
  }

  /** A simple name and an address, put in a header as the composer does, are read back, quoted or not. */
  lemma {:induction false} FormattedReads(a: Composer.Address)
    requires Composer.IsSimpleName(a.name) && Trim(a.name) == a.name && |a.name| <= MAX_NAME_CHARS - 2
    requires IsCanonical(a.address) && |a.address| <= MAX_ADDRESS_CHARS
    ensures ParseRecipient(Composer.FormatAddress(a)) == Ok(Recipient(a.name, a.address))
  {
    NameIsLead(a.name);
    AddressIsPlain(a.address);
    Trimmed(a.address);
    hide Trim, TrimEnd, IsSpace, ParseRecipient, IsAddress, LowercaseDomain, IsPlain, IsLead, Unquoted, Bracketed,
         Composer.IsSimpleName, Composer.FormatAddress;
    BracketedReads(a.name, a.address);
    BracketedReads("\"" + a.name + "\"", a.address);
    FormatIs(a);
  }
}
