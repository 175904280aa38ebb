/** `parseRecipientList`, and what an accepted recipient is good for. */
module RecipientList {
  import opened Basics
  import opened Strings
  import opened Text
  import opened Recipients
  import Composer

  // ---- The list ----

  function NonBlank(pieces: seq<string>): seq<string> {
    if pieces == [] then []
    else
      var rest, last := NonBlank(pieces[..|pieces| - 1]), pieces[|pieces| - 1];
      if Trim(last) == "" then rest else rest + [last]
  }

  predicate AllAccepted(parts: seq<string>) {
    forall i :: 0 <= i < |parts| ==> ParseRecipient(parts[i]).Ok?
  }

  /** What makes two recipients the same person. */
  function KeyOf(r: Recipient): string {
    Lower(r.address)
  }

  predicate HasKey(recipients: seq<Recipient>, key: string) {
    exists i :: 0 <= i < |recipients| && KeyOf(recipients[i]) == key
  }

  /** Each part's recipient, where its key first appears. */
  function Chosen(parts: seq<string>): seq<Recipient>
    requires AllAccepted(parts)
  {
    if parts == [] then []
    else
      var before, r := Chosen(parts[..|parts| - 1]), ParseRecipient(parts[|parts| - 1]).value;
      if HasKey(before, KeyOf(r)) then before else before + [r]
  }

  /** The refusal of the first part that has one. */
  function FirstRefusal(parts: seq<string>): Refusal
    requires !AllAccepted(parts)
    decreases |parts|
  {
    if ParseRecipient(parts[0]).Err? then ParseRecipient(parts[0]).error
    else (LaterOneIsRefused(parts); FirstRefusal(parts[1..]))
  }

  lemma {:induction false} LaterOneIsRefused(parts: seq<string>)
    requires !AllAccepted(parts) && ParseRecipient(parts[0]).Ok?
    ensures !AllAccepted(parts[1..])
  {
    hide ParseRecipient;
    var i :| 0 <= i < |parts| && !ParseRecipient(parts[i]).Ok?;
    assert parts[1..][i - 1] == parts[i];
  }

  function ParseList(input: string, max: nat): Result<seq<Recipient>, Refusal> {
    var raw := Trim(input);
    var parts := NonBlank(Pieces(raw));
    if HasControlCharacter(raw) then Err(ControlCharacter)
    else if parts == [] then Err(NoAddress)
    else if |parts| > max then Err(TooMany)
    else if AllAccepted(parts) then Ok(Chosen(parts))
    else Err(FirstRefusal(parts))
  }

  lemma {:induction false} FirstRefusalIs(parts: seq<string>, i: nat)
    requires i < |parts| && AllAccepted(parts[..i]) && ParseRecipient(parts[i]).Err?
    ensures !AllAccepted(parts) && FirstRefusal(parts) == ParseRecipient(parts[i]).error
    decreases i
  {
    hide ParseRecipient;
    if i > 0 {
      assert parts[..i][0] == parts[0];
      assert parts[1..][..i - 1] == parts[..i][1..] && parts[1..][i - 1] == parts[i];
      FirstRefusalIs(parts[1..], i - 1);
    }
  }

  method ParseRecipientList(input: string, max: nat) returns (result: Result<seq<Recipient>, Refusal>)
    ensures result == ParseList(input, max)
  {
    hide ParseRecipient, Pieces, NonBlank, Trim, Lower;
    var raw := Trim(input);
    if HasControlCharacter(raw) {
      return Err(ControlCharacter);
    }
    var pieces := SplitAddresses(raw);
    var parts := NonBlank(pieces);
    if |parts| == 0 {
      return Err(NoAddress);
    }
    if |parts| > max {
      return Err(TooMany);
    }
    var seen: set<string>, recipients: seq<Recipient> := {}, [];
    for i := 0 to |parts|
      invariant AllAccepted(parts[..i]) && recipients == Chosen(parts[..i])
      invariant forall key :: key in seen <==> HasKey(recipients, key)
    {
      var parsed := ParseRecipient(parts[i]);
      if parsed.Err? {
        FirstRefusalIs(parts, i);
        return Err(parsed.error);
      }
      assert parts[..i + 1][..i] == parts[..i];
      var key := KeyOf(parsed.value);
      if key !in seen {
        seen := seen + {key};
        SnocHasKey(recipients, parsed.value);
        recipients := recipients + [parsed.value];
      }
    }
    assert parts[..|parts|] == parts;
    result := Ok(recipients);
  }

  lemma {:induction false} SnocHasKey(recipients: seq<Recipient>, r: Recipient)
    ensures forall key :: HasKey(recipients + [r], key) <==> HasKey(recipients, key) || key == KeyOf(r)
  {
    var all := recipients + [r];
    hide Lower, KeyOf;
    forall key ensures HasKey(all, key) <==> HasKey(recipients, key) || key == KeyOf(r) {
      assert all[|recipients|] == r;
      if HasKey(recipients, key) {
        var i :| 0 <= i < |recipients| && KeyOf(recipients[i]) == key;
        assert all[i] == recipients[i];
      }
    }
  }

  predicate AreDistinct(recipients: seq<Recipient>) {
    forall i, j :: 0 <= i < j < |recipients| ==> KeyOf(recipients[i]) != KeyOf(recipients[j])
  }

  lemma {:induction false} ChosenAreDistinct(parts: seq<string>)
    requires AllAccepted(parts)
    ensures AreDistinct(Chosen(parts)) && |Chosen(parts)| <= |parts|
    ensures parts != [] ==> Chosen(parts) != []
  {
    hide ParseRecipient, KeyOf;
    if parts != [] {
      ChosenAreDistinct(parts[..|parts| - 1]);
    }
  }

  /** A part is a recipient, and that person is among the chosen. */
  predicate IsCovered(recipients: seq<Recipient>, part: string) {
    match ParseRecipient(part)
    case Ok(r) => HasKey(recipients, KeyOf(r))
    case Err(_) => false
  }

  predicate ComesFrom(parts: seq<string>, r: Recipient) {
    exists k :: 0 <= k < |parts| && ParseRecipient(parts[k]) == Ok(r)
  }

  lemma {:induction false} ChosenCoverTheParts(parts: seq<string>, k: nat)
    requires AllAccepted(parts) && k < |parts|
    ensures IsCovered(Chosen(parts), parts[k])
  {
    hide ParseRecipient, KeyOf;
    var before, r := parts[..|parts| - 1], ParseRecipient(parts[|parts| - 1]).value;
    SnocHasKey(Chosen(before), r);
    if k < |parts| - 1 {
      assert before[k] == parts[k];
      ChosenCoverTheParts(before, k);
    }
  }

  lemma {:induction false} ChosenComeFromTheParts(parts: seq<string>, r: Recipient)
    requires AllAccepted(parts) && r in Chosen(parts)
    ensures ComesFrom(parts, r)
  {
    hide ParseRecipient, KeyOf;
    var before := parts[..|parts| - 1];
    if r in Chosen(before) {
      ChosenComeFromTheParts(before, r);
      var k :| 0 <= k < |before| && ParseRecipient(before[k]) == Ok(r);
      assert parts[k] == before[k];
    } else {
      assert ParseRecipient(parts[|parts| - 1]) == Ok(r);
    }
  }

  /** Each is the recipient of the part at its index, the first part with that key; the indices grow. */
  predicate AreFirsts(parts: seq<string>, recipients: seq<Recipient>, indices: seq<nat>) {
    && |indices| == |recipients|
    && (forall j :: 0 <= j < |indices| ==> IsFirst(parts, recipients[j], indices[j]))
    && (forall i, j :: 0 <= i < j < |indices| ==> indices[i] < indices[j])
  }

  predicate IsFirst(parts: seq<string>, r: Recipient, k: nat) {
    && k < |parts| && ParseRecipient(parts[k]) == Ok(r)
    && forall i :: 0 <= i < k && ParseRecipient(parts[i]).Ok? ==> KeyOf(ParseRecipient(parts[i]).value) != KeyOf(r)
  }

  lemma {:induction false} ChosenAreFirsts(parts: seq<string>) returns (indices: seq<nat>)
    requires AllAccepted(parts)
    ensures AreFirsts(parts, Chosen(parts), indices)
  {
    hide ParseRecipient, KeyOf;
    if parts == [] {
      indices := [];
    } else {
      var n := |parts| - 1;
      var before, r := Chosen(parts[..n]), ParseRecipient(parts[n]).value;
      indices := ChosenAreFirsts(parts[..n]);
      forall j | 0 <= j < |before| ensures IsFirst(parts, before[j], indices[j]) {
        assert IsFirst(parts[..n], before[j], indices[j]);
      }
      if !HasKey(before, KeyOf(r)) {
        forall i | 0 <= i < n ensures KeyOf(ParseRecipient(parts[i]).value) != KeyOf(r) {
          ChosenCoverTheParts(parts[..n], i);
          assert parts[..n][i] == parts[i];
        }
        forall j | 0 <= j < |indices| ensures indices[j] < n {
          assert IsFirst(parts[..n], before[j], indices[j]);
        }
        assert IsFirst(parts, r, n);
        indices := indices + [n];
      }
    }
  }

  /** What the list is made of. */
  function Parts(input: string): seq<string> {
    NonBlank(Pieces(Trim(input)))
  }

  /** A list is accepted exactly when each piece is, there are one to `max`, and nothing is a control character. */
  lemma {:induction false} AcceptedExactly(input: string, max: nat)
    ensures ParseList(input, max).Ok?
       <==> !HasControlCharacter(Trim(input)) && 0 < |Parts(input)| <= max && AllAccepted(Parts(input))
  {
    hide ParseRecipient, Pieces, NonBlank, Trim, HasControlCharacter, Chosen, FirstRefusal;
  }

  /**
   * An accepted list is not empty, within the limit, without two entries for one person,
   * covers every non-blank piece and holds nothing else: each person as first written, in order.
   */
  lemma {:induction false} ListIsWhatWasTyped(input: string, max: nat, recipients: seq<Recipient>)
    requires ParseList(input, max) == Ok(recipients)
    ensures 0 < |recipients| <= max && AreDistinct(recipients)
    ensures forall i, j :: 0 <= i < j < |recipients| ==> Lower(recipients[i].address) != Lower(recipients[j].address)
    ensures forall part <- Parts(input) :: IsCovered(recipients, part)
    ensures forall r <- recipients :: ComesFrom(Parts(input), r)
    ensures exists indices :: AreFirsts(Parts(input), recipients, indices)
  {
    hide ParseRecipient, Pieces, NonBlank, Trim, IsCovered, ComesFrom, Chosen, HasControlCharacter, AreFirsts, Lower;
    var parts := Parts(input);
    var indices := ChosenAreFirsts(parts);
    ChosenAreDistinct(parts);
    assert forall r <- recipients :: KeyOf(r) == Lower(r.address);
    hide AreDistinct, KeyOf;
    forall part <- parts ensures IsCovered(recipients, part) {
      var k :| 0 <= k < |parts| && parts[k] == part;
      ChosenCoverTheParts(parts, k);
    }
    forall r <- recipients ensures ComesFrom(parts, r) {
      ChosenComeFromTheParts(parts, r);
    }
  }

  // ---- What an accepted recipient is good for ----

  lemma {:induction false} PartHasNoControl(whole: string, part: string)
    requires !HasControlCharacter(whole) && forall c <- part :: c in whole
    ensures !HasControlCharacter(part)
  {
    hide IsControl;
  }

  lemma {:induction false} LowerHasNoControl(s: string)
    requires !HasControlCharacter(s)
    ensures !HasControlCharacter(Lower(s))
  {
    forall c <- Lower(s) ensures !IsControl(c) {
      var i :| 0 <= i < |s| && Lower(s)[i] == c;
      assert s[i] in s;
    }
  }

  lemma {:induction false} NoControlIsSafe(s: string)
    requires !HasControlCharacter(s)
    ensures Composer.IsSafe(s)
  {
    assert IsControl('\r') && IsControl('\n') && IsControl('\0');
  }

  lemma {:induction false} LowercaseDomainHasNoControl(address: string)
    requires LastIndexOf(address, '@') >= 0 && !HasControlCharacter(address)
    ensures !HasControlCharacter(LowercaseDomain(address))
  {
    var at := LastIndexOf(address, '@');
    PartHasNoControl(address, address[..at]);
    PartHasNoControl(address, address[at + 1..]);
    LowerHasNoControl(address[at + 1..]);
    assert !IsControl('@');
    hide IsControl, Lower;
    forall c <- LowercaseDomain(address) ensures !IsControl(c) {
      assert c in address[..at] || c == '@' || c in Lower(address[at + 1..]);
    }
  }

  lemma {:induction false} NameHasNoControl(raw: string)
    requires !HasControlCharacter(raw)
    ensures MatchNamed(raw).Some? ==> !HasControlCharacter(MatchNamed(raw).value.address)
    ensures MatchNamed(raw).Some? ==> !HasControlCharacter(Unquoted(Trim(MatchNamed(raw).value.name)))
  {
    hide HasControlCharacter, Trim;
    if MatchNamed(raw).Some? {
      var name, address := MatchNamed(raw).value.name, MatchNamed(raw).value.address;
      TrimEndIs(raw[..LastIndexOf(raw, '<')]);
      PartHasNoControl(raw, name);
      PartHasNoControl(raw, address);
      TrimIsPart(name);
      PartHasNoControl(raw, Trim(name));
      PartHasNoControl(raw, Unquoted(Trim(name)));
    }
  }

  /** The composer never refuses a recipient that was accepted here, whatever was typed. */
  lemma {:induction false} AcceptedIsSafe(input: string)
    ensures var r := ParseRecipient(input);
            r.Ok? ==> Composer.IsSafeAddress(Composer.Address(r.value.name, r.value.address))
  {
    hide HasControlCharacter, Trim, MatchNamed, Unquoted, IsLocalPart, IsDomain, LowercaseDomain, Width;
    if ParseRecipient(input).Ok? {
      var raw, r := Trim(input), ParseRecipient(input).value;
      NameHasNoControl(raw);
      var typed := if MatchNamed(raw).Some? then MatchNamed(raw).value.address else raw;
      TrimIsPart(typed);
      PartHasNoControl(typed, Trim(typed));
      LowercaseDomainHasNoControl(Trim(typed));
      TrimIsPart(r.address);
      PartHasNoControl(r.address, Trim(r.address));
      NoControlIsSafe(Trim(r.address));
      NoControlInNothing();
      TrimIsPart(r.name);
      PartHasNoControl(r.name, Trim(r.name));
      NoControlIsSafe(Trim(r.name));
    }
  }

  lemma {:induction false} NoControlInNothing()
    ensures !HasControlCharacter("")
  {
  }
}
