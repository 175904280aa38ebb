/**
 * RFC 5322 threading: normalising message ids, building the `References` of a reply and
 * trimming it, and what a whole conversation's chain then looks like.
 */
module Threading {
  import opened Strings
  import opened Text

  const KEEP_RECENT := 5
  const MAX_REFERENCES_LENGTH := 900

  // ---- Message ids ----

  function DropOpening(s: string): (r: string)
    ensures |r| <= |s| && (r != "" ==> r[0] != '<')
  {
    if s != "" && s[0] == '<' then DropOpening(s[1..]) else s
  }

  function DropClosing(s: string): (r: string)
    ensures |r| <= |s| && (r != "" ==> r[|r| - 1] != '>')
  {
    if s != "" && s[|s| - 1] == '>' then DropClosing(s[..|s| - 1]) else s
  }

  /** What stands between the brackets; empty when there is no id. */
  function Inner(raw: string): string {
    Trim(DropClosing(DropOpening(Trim(raw))))
  }

  function NormalizeMessageId(raw: string): string {
    if Inner(raw) == "" then "" else "<" + Inner(raw) + ">"
  }

  /** Bracketed twice, with a space between the brackets, an id keeps its inner brackets. */
  predicate IsBracketed(inner: string) {
    inner != "" && (inner[0] == '<' || inner[|inner| - 1] == '>')
  }

  lemma {:induction false} OpeningDrops(inner: string)
    requires inner != "" && inner[0] != '<'
    ensures DropOpening("<" + inner + ">") == inner + ">"
  {
    var whole := "<" + inner + ">";
    assert whole[0] == '<' && whole[1..] == inner + ">" && (inner + ">")[0] == inner[0];
  }

  lemma {:induction false} ClosingDrops(inner: string)
    requires inner != ""
    ensures DropClosing(inner + ">") == DropClosing(inner)
  {
    assert (inner + ">")[..|inner|] == inner;
  }

  lemma {:induction false} TrimOfBrackets(inner: string)
    ensures Trim("<" + inner + ">") == "<" + inner + ">"
  {
    var whole := "<" + inner + ">";
    assert whole[0] == '<' && whole[|whole| - 1] == '>';
  }

  lemma {:induction false} InnerOfBracketed(inner: string)
    requires inner != "" && Trim(inner) == inner && !IsBracketed(inner)
    ensures Inner("<" + inner + ">") == inner
  {
    hide Trim, DropOpening;
    TrimOfBrackets(inner);
    OpeningDrops(inner);
    ClosingDrops(inner);
  }

  /** Normalising is idempotent exactly when what stands between the brackets has none of its own at its ends. */
  lemma {:induction false} NormalizeIsIdempotentExactly(raw: string)
    ensures NormalizeMessageId(NormalizeMessageId(raw)) == NormalizeMessageId(raw) <==> !IsBracketed(Inner(raw))
  {
    var inner := Inner(raw);
    TrimIsIdempotent(DropClosing(DropOpening(Trim(raw))));
    if inner == "" {
    } else if !IsBracketed(inner) {
      InnerOfBracketed(inner);
    } else {
      NormalizeAgainShrinks(inner);
    }
  }

  lemma {:induction false} NormalizeAgainShrinks(inner: string)
    requires inner != "" && IsBracketed(inner)
    ensures |Inner("<" + inner + ">")| < |inner|
  {
    hide Trim, DropOpening;
    var whole := "<" + inner + ">";
    TrimOfBrackets(inner);
    if inner[0] == '<' {
      assert whole[1] == '<' && whole[|whole| - 1] == '>';
      DropsBoth(whole);
      ClosingEnds(DropOpening(whole), whole);
      hide DropClosing;
    } else {
      OpeningDrops(inner);
      ClosingDrops(inner);
    }
  }

  lemma {:induction false} DropsBoth(s: string)
    requires |s| >= 2 && s[0] == '<' && s[1] == '<'
    ensures |DropOpening(s)| <= |s| - 2
  {
    assert s[1..][0] == '<' && s[1..][1..] == s[2..];
  }

  /** Dropping from the front leaves the end, if anything is left. */
  lemma {:induction false} ClosingEnds(bare: string, whole: string)
    requires bare == DropOpening(whole) && whole != "" && whole[|whole| - 1] == '>'
    ensures bare != "" && bare[|bare| - 1] == '>' && |DropClosing(bare)| < |bare|
    decreases |whole|
  {
    if whole[0] == '<' {
      ClosingEnds(bare, whole[1..]);
    }
  }

  /** An id as it may be written: in any number of brackets, or none, and with white space about. */
  datatype Spelling = Spelling(
    before: string, opening: string, lead: string, id: string, tail: string, closing: string, after: string)

  predicate IsSpelling(s: Spelling) {
    && IsAllSpace(s.before) && IsAllSpace(s.lead) && IsAllSpace(s.tail) && IsAllSpace(s.after)
    && (forall c <- s.opening :: c == '<') && (forall c <- s.closing :: c == '>')
    && (s.opening == "" ==> s.lead == "") && (s.closing == "" ==> s.tail == "")
    && s.id != "" && Trim(s.id) == s.id && !IsBracketed(s.id)
  }

  function RawOf(s: Spelling): string {
    s.before + (s.opening + (s.lead + s.id + s.tail) + s.closing) + s.after
  }

  lemma {:induction false} OpeningsDrop(opening: string, s: string)
    requires (forall c <- opening :: c == '<') && (s != "" ==> s[0] != '<')
    ensures DropOpening(opening + s) == s
  {
    if opening == "" {
      assert opening + s == s;
    } else {
      assert opening[0] in opening && (opening + s)[0] == opening[0] && (opening + s)[1..] == opening[1..] + s;
      assert forall c <- opening[1..] :: c in opening;
      OpeningsDrop(opening[1..], s);
    }
  }

  lemma {:induction false} ClosingsDrop(s: string, closing: string)
    requires (forall c <- closing :: c == '>') && (s != "" ==> s[|s| - 1] != '>')
    ensures DropClosing(s + closing) == s
  {
    if closing == "" {
      assert s + closing == s;
    } else {
      var whole := s + closing;
      assert closing[|closing| - 1] in closing && whole[|whole| - 1] == closing[|closing| - 1];
      assert whole[..|whole| - 1] == s + closing[..|closing| - 1];
      var fewer := closing[..|closing| - 1];
      forall c <- fewer ensures c == '>' {
        assert c in closing;
      }
      ClosingsDrop(s, fewer);
    }
  }

  lemma {:induction false} BlanksAreNoBrackets(lead: string, id: string, tail: string)
    requires IsAllSpace(lead) && IsAllSpace(tail) && id != "" && Trim(id) == id && !IsBracketed(id)
    ensures var s := lead + id + tail; s[0] != '<' && s[|s| - 1] != '>' && Trim(s) == id
  {
    var s := lead + id + tail;
    assert !IsSpace('<') && !IsSpace('>');
    TrimBetween(lead, id, tail);
    hide IsSpace, Trim;
    assert lead != "" ==> s[0] == lead[0] && lead[0] in lead;
    assert tail != "" ==> s[|s| - 1] == tail[|tail| - 1] && tail[|tail| - 1] in tail;
  }

  lemma {:induction false} InnerOfSpelling(opening: string, s: string, closing: string, id: string)
    requires (forall c <- opening :: c == '<') && (forall c <- closing :: c == '>')
    requires s != "" && s[0] != '<' && s[|s| - 1] != '>' && Trim(s) == id
    requires opening != "" || !IsSpace(s[0])
    requires closing != "" || !IsSpace(s[|s| - 1])
    ensures Inner(opening + s + closing) == id
  {
    var whole := opening + s + closing;
    assert whole[0] == (opening + s)[0];
    assert opening != "" ==> opening[0] in opening && (opening + s)[0] == '<';
    assert closing != "" ==> closing[|closing| - 1] in closing && whole[|whole| - 1] == '>';
    assert !IsSpace('<') && !IsSpace('>');
    TrimOfTrimmed(whole);
    assert whole == opening + (s + closing) && (s + closing)[0] == s[0];
    hide Trim, IsSpace, DropOpening, DropClosing;
    OpeningsDrop(opening, s + closing);
    ClosingsDrop(s, closing);
  }

  lemma {:induction false} OuterSpaceOfIds(before: string, raw: string, after: string)
    requires IsAllSpace(before) && IsAllSpace(after)
    ensures NormalizeMessageId(before + raw + after) == NormalizeMessageId(raw)
  {
    TrimIgnoresOuterSpace(before, raw, after);
    hide Trim;
  }

  lemma {:induction false} PartsAreBracketed(opening: string, lead: string, id: string, tail: string, closing: string)
    requires (forall c <- opening :: c == '<') && (forall c <- closing :: c == '>')
    requires IsAllSpace(lead) && IsAllSpace(tail) && id != "" && Trim(id) == id && !IsBracketed(id)
    requires (opening == "" ==> lead == "") && (closing == "" ==> tail == "")
    ensures NormalizeMessageId(opening + (lead + id + tail) + closing) == "<" + id + ">"
  {
    var text := lead + id + tail;
    BlanksAreNoBrackets(lead, id, tail);
    assert opening == "" ==> text[0] == id[0];
    assert closing == "" ==> text[|text| - 1] == id[|id| - 1];
    hide Trim, IsSpace, DropOpening, DropClosing, Inner, IsAllSpace;
    InnerOfSpelling(opening, text, closing, id);
  }

  /** However an id is written, it is normalised to itself in one pair of brackets. */
  lemma {:induction false} SpellingsAreBracketed(s: Spelling)
    requires IsSpelling(s)
    ensures NormalizeMessageId(RawOf(s)) == "<" + s.id + ">"
  {
    hide Trim, IsAllSpace, IsBracketed, NormalizeMessageId;
    PartsAreBracketed(s.opening, s.lead, s.id, s.tail, s.closing);
    OuterSpaceOfIds(s.before, s.opening + (s.lead + s.id + s.tail) + s.closing, s.after);
  }

  lemma {:induction false} EmptyBrackets(opening: string, closing: string)
    requires (forall c <- opening :: c == '<') && (forall c <- closing :: c == '>')
    ensures NormalizeMessageId(opening + closing) == ""
  {
    var whole := opening + closing;
    forall i | 0 <= i < |whole| ensures whole[i] == '<' || whole[i] == '>' {
      assert whole[i] in opening || whole[i] in closing;
    }
    assert !IsSpace('<') && !IsSpace('>');
    hide IsSpace, Trim;
    TrimOfTrimmed(whole);
    assert closing != "" ==> closing[0] in closing;
    OpeningsDrop(opening, closing);
    assert "" + closing == closing;
    ClosingsDrop("", closing);
    TrimOfNothing();
  }

  /** White space and brackets alone are no id. */
  lemma {:induction false} NothingIsNoId(before: string, opening: string, closing: string, after: string)
    requires IsAllSpace(before) && IsAllSpace(after)
    requires (forall c <- opening :: c == '<') && (forall c <- closing :: c == '>')
    ensures NormalizeMessageId(before + (opening + closing) + after) == ""
  {
    hide IsAllSpace, NormalizeMessageId;
    EmptyBrackets(opening, closing);
    OuterSpaceOfIds(before, opening + closing, after);
  }

  lemma TrimOfNothing()
    ensures Trim("") == ""
  {
  }

  // ---- Trimming ----

  predicate TooLong(chain: seq<string>) {
    Width(Join(chain, " ")) > MAX_REFERENCES_LENGTH
  }

  /** What the loop keeps of the ids after the root. */
  function Shrink(root: string, rest: seq<string>): seq<string>
    decreases |rest|
  {
    if |rest| > KEEP_RECENT && TooLong([root] + rest) then Shrink(root, rest[1..]) else rest
  }

  function TrimReferences(chain: seq<string>): seq<string> {
    if chain == [] then [] else [chain[0]] + Shrink(chain[0], chain[1..])
  }

  method TrimReferencesByLoop(chain: seq<string>) returns (result: seq<string>)
    ensures result == TrimReferences(chain)
  {
    hide TooLong;
    if |chain| <= KEEP_RECENT + 1 {
      return chain;
    }
    result := chain;
    while TooLong(result) && |result| > KEEP_RECENT + 1
      invariant |result| > KEEP_RECENT && result[0] == chain[0]
      invariant Shrink(chain[0], result[1..]) == Shrink(chain[0], chain[1..])
      decreases |result|
    {
      assert result == [result[0]] + result[1..];
      assert result[1..][1..] == result[2..];
      result := [result[0]] + result[2..];
    }
    assert result == [result[0]] + result[1..];
  }

  /** The length of a chain with a space after every id. */
  function Total(chain: seq<string>): nat {
    if chain == [] then 0 else Width(chain[0]) + 1 + Total(chain[1..])
  }

  lemma {:induction false} JoinedWidth(chain: seq<string>)
    requires chain != []
    ensures Width(Join(chain, " ")) + 1 == Total(chain)
  {
    if |chain| == 1 {
      assert Total(chain[1..]) == 0;
    } else {
      JoinedWidth(chain[1..]);
      var rest := Join(chain[1..], " ");
      WidthAppend(chain[0], " ");
      WidthAppend(chain[0] + " ", rest);
      assert Width(" ") == 1 + Width(" "[1..]);
    }
  }

  lemma {:induction false} TotalAppend(a: seq<string>, b: seq<string>)
    ensures Total(a + b) == Total(a) + Total(b)
  {
    if a == [] {
      assert a + b == b;
    } else {
      assert (a + b)[1..] == a[1..] + b;
      TotalAppend(a[1..], b);
    }
  }

  /** More ids never make a chain shorter. */
  lemma {:induction false} LongerIsTooLong(root: string, extra: seq<string>, rest: seq<string>, more: seq<string>)
    requires TooLong([root] + rest)
    ensures TooLong([root] + extra + rest + more)
  {
    hide Width, Join;
    JoinedWidth([root] + rest);
    JoinedWidth([root] + extra + rest + more);
    TotalAppend([root], rest);
    TotalAppend([root], extra);
    TotalAppend([root] + extra, rest);
    TotalAppend([root] + extra + rest, more);
  }

  /**
   * What is kept after the root is a suffix: it fits or has exactly five ids, and no longer
   * suffix would do either.
   */
  lemma {:induction false} KeepsTheLongestSuffix(root: string, rest: seq<string>)
    ensures var kept := Shrink(root, rest);
            && |kept| <= |rest| && kept == rest[|rest| - |kept|..]
            && (|kept| <= KEEP_RECENT || !TooLong([root] + kept))
            && (forall k :: 0 <= k < |rest| - |kept| ==> TooLong([root] + rest[k..]))
            && (|rest| >= KEEP_RECENT ==> |kept| >= KEEP_RECENT)
            && (|rest| < KEEP_RECENT ==> kept == rest)
    decreases |rest|
  {
    hide TooLong;
    assert rest[0..] == rest;
    if |rest| > KEEP_RECENT && TooLong([root] + rest) {
      KeepsTheLongestSuffix(root, rest[1..]);
      forall k | 0 <= k < |rest| - |Shrink(root, rest)| ensures TooLong([root] + rest[k..]) {
        if k > 0 {
          assert rest[1..][k - 1..] == rest[k..];
        }
      }
    }
  }

  /** The whole result: everything when it fits, and otherwise the root and the longest suffix that does, or six ids. */
  lemma {:induction false} TrimKeepsRootAndRecent(chain: seq<string>)
    requires chain != []
    ensures var t, rest := TrimReferences(chain), chain[1..];
            exists k | 0 <= k <= |rest| ::
              && t == [chain[0]] + rest[k..]
              && (k > 0 ==> |t| >= KEEP_RECENT + 1)
              && (|t| <= KEEP_RECENT + 1 || !TooLong(t))
              && (forall j | 0 <= j < k :: TooLong([chain[0]] + rest[j..]))
  {
    hide TooLong, Shrink;
    var rest := chain[1..];
    KeepsTheLongestSuffix(chain[0], rest);
    var k := |rest| - |Shrink(chain[0], rest)|;
    assert TrimReferences(chain) == [chain[0]] + rest[k..];
  }

  lemma {:induction false} TrimReferencesIsIdempotent(chain: seq<string>)
    ensures TrimReferences(TrimReferences(chain)) == TrimReferences(chain)
  {
    hide TooLong;
    if chain != [] {
      var kept := Shrink(chain[0], chain[1..]);
      KeepsTheLongestSuffix(chain[0], chain[1..]);
      assert ([chain[0]] + kept)[1..] == kept;
    }
  }

  /** Trimming before a reply is added changes nothing about the reply's chain. */
  lemma {:induction false} ShrinkThenAppend(root: string, rest: seq<string>, id: string)
    ensures Shrink(root, Shrink(root, rest) + [id]) == Shrink(root, rest + [id])
    decreases |rest|
  {
    hide TooLong;
    if |rest| > KEEP_RECENT && TooLong([root] + rest) {
      LongerIsTooLong(root, [], rest, [id]);
      assert [root] + [] + rest + [id] == [root] + (rest + [id]);
      assert (rest + [id])[1..] == rest[1..] + [id];
      ShrinkThenAppend(root, rest[1..], id);
    }
  }

  lemma {:induction false} TrimThenAppend(chain: seq<string>, id: string)
    ensures TrimReferences(TrimReferences(chain) + [id]) == TrimReferences(chain + [id])
  {
    hide Shrink;
    if chain != [] {
      var kept := Shrink(chain[0], chain[1..]);
      assert ([chain[0]] + kept + [id])[1..] == kept + [id];
      assert (chain + [id])[1..] == chain[1..] + [id];
      ShrinkThenAppend(chain[0], chain[1..], id);
    }
  }

  // ---- A reply's headers ----

  /** The normalised ids that are ids at all. */
  function Normalized(references: seq<string>): seq<string> {
    if references == [] then []
    else
      var rest, id := Normalized(references[..|references| - 1]), NormalizeMessageId(references[|references| - 1]);
      if id == "" then rest else rest + [id]
  }

  /** Each id where it first appears. */
  function FirstSeen(ids: seq<string>): (r: seq<string>)
    ensures forall id :: id in r <==> id in ids
  {
    if ids == [] then []
    else
      var before, last := ids[..|ids| - 1], ids[|ids| - 1];
      if last in before then FirstSeen(before) else FirstSeen(before) + [last]
  }

  predicate AreDistinct(ids: seq<string>) {
    forall i, j :: 0 <= i < j < |ids| ==> ids[i] != ids[j]
  }

  lemma {:induction false} FirstSeenAreDistinct(ids: seq<string>)
    ensures AreDistinct(FirstSeen(ids))
  {
    if ids != [] {
      FirstSeenAreDistinct(ids[..|ids| - 1]);
    }
  }

  lemma {:induction false} DistinctAreFirstSeen(ids: seq<string>)
    requires AreDistinct(ids)
    ensures FirstSeen(ids) == ids
  {
    if ids != [] {
      DistinctAreFirstSeen(ids[..|ids| - 1]);
    }
  }

  function ReplyChain(parent: string, references: seq<string>): seq<string> {
    var chain, id := FirstSeen(Normalized(references)), NormalizeMessageId(parent);
    if id != "" && id !in chain then chain + [id] else chain
  }

  function ReplyReferences(parent: string, references: seq<string>): seq<string> {
    TrimReferences(ReplyChain(parent, references))
  }

  method BuildReplyHeaders(messageIdHeader: string, references: seq<string>)
    returns (inReplyTo: string, replyReferences: seq<string>)
    ensures inReplyTo == NormalizeMessageId(messageIdHeader)
    ensures replyReferences == ReplyReferences(messageIdHeader, references)
  {
    hide NormalizeMessageId;
    inReplyTo := NormalizeMessageId(messageIdHeader);
    var seen: set<string>, chain: seq<string> := {}, [];
    for i := 0 to |references|
      invariant chain == FirstSeen(Normalized(references[..i]))
      invariant forall id :: id in seen <==> id in chain
    {
      var id := NormalizeMessageId(references[i]);
      assert references[..i + 1][..i] == references[..i];
      if id != "" && id !in seen {
        seen := seen + {id};
        chain := chain + [id];
      }
    }
    assert references[..|references|] == references;
    if inReplyTo != "" && inReplyTo !in seen {
      chain := chain + [inReplyTo];
    }
    replyReferences := TrimReferencesByLoop(chain);
  }

  function RawsOf(ids: seq<Spelling>): (raws: seq<string>)
    ensures |raws| == |ids| && forall i :: 0 <= i < |ids| ==> raws[i] == RawOf(ids[i])
  {
    seq(|ids|, i requires 0 <= i < |ids| => RawOf(ids[i]))
  }

  function BracketsOf(ids: seq<Spelling>): (brackets: seq<string>)
    ensures |brackets| == |ids| && forall i :: 0 <= i < |ids| ==> brackets[i] == "<" + ids[i].id + ">"
  {
    seq(|ids|, i requires 0 <= i < |ids| => "<" + ids[i].id + ">")
  }

  lemma {:induction false} SpeltAreNormalized(ids: seq<Spelling>)
    requires forall s <- ids :: IsSpelling(s)
    ensures Normalized(RawsOf(ids)) == BracketsOf(ids)
  {
    hide NormalizeMessageId, IsSpelling, RawOf;
    if ids != [] {
      var n := |ids| - 1;
      SpeltAreNormalized(ids[..n]);
      SpellingsAreBracketed(ids[n]);
      assert RawsOf(ids)[..n] == RawsOf(ids[..n]);
      assert BracketsOf(ids) == BracketsOf(ids[..n]) + ["<" + ids[n].id + ">"];
    }
  }

  /**
   * However the parent's id and the ids it refers to are written, the reply names each once in one
   * pair of brackets, the parent last if it is new.
   */
  lemma {:induction false} ReplyNamesTheIds(parent: Spelling, references: seq<Spelling>)
    requires IsSpelling(parent) && forall s <- references :: IsSpelling(s)
    ensures var id, before := "<" + parent.id + ">", FirstSeen(BracketsOf(references));
            && NormalizeMessageId(RawOf(parent)) == id
            && ReplyReferences(RawOf(parent), RawsOf(references))
               == TrimReferences(if id in before then before else before + [id])
  {
    hide NormalizeMessageId, IsSpelling, RawOf, RawsOf, BracketsOf, TrimReferences, FirstSeen;
    SpellingsAreBracketed(parent);
    SpeltAreNormalized(references);
    assert "<" + parent.id + ">" != "";
  }

  /** Something is dropped exactly from more than six ids that take more than 900 characters. */
  lemma {:induction false} TrimDropsExactly(chain: seq<string>)
    ensures TrimReferences(chain) != chain <==> |chain| > 6 && Width(Join(chain, " ")) > 900
  {
    if chain != [] {
      assert chain == [chain[0]] + chain[1..];
      hide Width, Join;
      assert TooLong(chain) <==> Width(Join(chain, " ")) > 900;
      if |chain| > 6 && TooLong(chain) {
        ShrinkIsShorter(chain[0], chain[1..][1..]);
      }
    }
  }

  lemma {:induction false} ShrinkIsShorter(root: string, rest: seq<string>)
    ensures |Shrink(root, rest)| <= |rest|
    decreases |rest|
  {
    hide TooLong;
    if |rest| > KEEP_RECENT && TooLong([root] + rest) {
      ShrinkIsShorter(root, rest[1..]);
    }
  }

  function Last(chain: seq<string>): string
    requires chain != []
  {
    chain[|chain| - 1]
  }

  lemma {:induction false} TrimKeepsTheEnds(chain: seq<string>)
    requires chain != []
    ensures var t := TrimReferences(chain); t[0] == chain[0] && Last(t) == Last(chain)
    ensures forall id <- TrimReferences(chain) :: id in chain
    ensures AreDistinct(chain) ==> AreDistinct(TrimReferences(chain))
  {
    hide TooLong, Shrink;
    KeepsTheLongestSuffix(chain[0], chain[1..]);
  }

  /**
   * The reply's chain ends with its parent for every history but one: a parent that its own
   * references already name is not moved to the end.
   */
  lemma {:induction false} EndsWithParentExactly(parent: string, references: seq<string>)
    requires NormalizeMessageId(parent) != ""
    ensures var id, before := NormalizeMessageId(parent), FirstSeen(Normalized(references));
            && ReplyReferences(parent, references) != []
            && (Last(ReplyReferences(parent, references)) == id <==> (id in before ==> Last(before) == id))
  {
    hide NormalizeMessageId, TrimReferences, Normalized, FirstSeen;
    TrimKeepsTheEnds(ReplyChain(parent, references));
    SomeReferences(ReplyChain(parent, references));
  }

  lemma {:induction false} SomeReferences(chain: seq<string>)
    requires chain != []
    ensures TrimReferences(chain) != []
  {
  }

  // ---- A conversation ----

  /** Message `k + 1` is a reply to message `k`; `ids` are their normalised ids. */
  predicate IsConversation(ids: seq<string>) {
    AreDistinct(ids) && AreNormalized(ids)
  }

  predicate AreNormalized(ids: seq<string>) {
    forall i :: 0 <= i < |ids| ==> ids[i] != "" && NormalizeMessageId(ids[i]) == ids[i]
  }

  /** The `References` of message `k`: the first has none, and every other is built from its parent's. */
  function ReferencesOf(ids: seq<string>, k: nat): seq<string>
    requires k <= |ids|
  {
    if k == 0 then [] else ReplyReferences(ids[k - 1], ReferencesOf(ids, k - 1))
  }

  lemma {:induction false} NormalizedAlready(ids: seq<string>)
    requires AreNormalized(ids)
    ensures Normalized(ids) == ids
  {
    hide NormalizeMessageId;
    if ids != [] {
      NormalizedAlready(ids[..|ids| - 1]);
    }
  }

  /** Trimmed at every step, the chain is what trimming all the ancestors at once would give. */
  lemma {:induction false} ReferencesAreTrimmedAncestors(ids: seq<string>, k: nat)
    requires k <= |ids| && IsConversation(ids)
    ensures ReferencesOf(ids, k) == TrimReferences(ids[..k])
  {
    hide NormalizeMessageId, TrimReferences, Normalized, FirstSeen;
    if k == 0 {
      assert TrimReferences([]) == [] by { NothingToTrim(); }
    } else {
      var before, id := ids[..k - 1], ids[k - 1];
      ReferencesAreTrimmedAncestors(ids, k - 1);
      var refs := TrimReferences(before);
      if k > 1 {
        TrimKeepsTheEnds(before);
      } else {
        NothingToTrim();
      }
      assert AreNormalized(refs) by {
        forall i | 0 <= i < |refs| ensures refs[i] != "" && NormalizeMessageId(refs[i]) == refs[i] {
          assert refs[i] in before;
        }
      }
      NormalizedAlready(refs);
      DistinctAreFirstSeen(refs);
      assert id !in before;
      TrimThenAppend(before, id);
      assert before + [id] == ids[..k];
    }
  }

  lemma {:induction false} NothingToTrim()
    ensures TrimReferences([]) == []
  {
  }

  lemma {:induction false} TrimKeepsTheRecent(chain: seq<string>)
    requires chain != []
    ensures var t := TrimReferences(chain);
            && (|chain| <= KEEP_RECENT + 1 ==> t == chain)
            && (|chain| > KEEP_RECENT ==> |t| > KEEP_RECENT && t[|t| - KEEP_RECENT..] == chain[|chain| - KEEP_RECENT..])
            && (|t| <= KEEP_RECENT + 1 || !TooLong(t))
  {
    hide Shrink, TooLong;
    var root, rest := chain[0], chain[1..];
    KeepsTheLongestSuffix(root, rest);
    var kept := Shrink(root, rest);
    if |chain| > KEEP_RECENT + 1 {
      assert ([root] + kept)[1 + |kept| - KEEP_RECENT..] == kept[|kept| - KEEP_RECENT..];
      assert rest[|rest| - KEEP_RECENT..] == chain[|chain| - KEEP_RECENT..];
    } else {
      assert kept == rest;
      assert [root] + rest == chain;
    }
  }

  lemma {:induction false} PrefixIsDistinct(ids: seq<string>, k: nat)
    requires AreDistinct(ids) && k <= |ids|
    ensures AreDistinct(ids[..k])
  {
  }

  /**
   * In a conversation of any length every reply names the root first, its parent last and no
   * id twice, keeps the last five ancestors, and fits the limit or has just six ids.
   */
  lemma {:induction false} EveryReplyIsThreaded(ids: seq<string>, k: nat)
    requires 0 < k <= |ids| && IsConversation(ids)
    ensures var r := ReferencesOf(ids, k);
            && r != [] && r[0] == ids[0] && Last(r) == ids[k - 1] && AreDistinct(r)
            && (k <= KEEP_RECENT + 1 ==> r == ids[..k])
            && (k > KEEP_RECENT ==> |r| > KEEP_RECENT && r[|r| - KEEP_RECENT..] == ids[k - KEEP_RECENT..k])
            && (|r| <= KEEP_RECENT + 1 || !TooLong(r))
  {
    hide AreNormalized, AreDistinct, TooLong, ReferencesOf, TrimReferences;
    ReferencesAreTrimmedAncestors(ids, k);
    PrefixIsDistinct(ids, k);
    var chain := ids[..k];
    SomeReferences(chain);
    TrimKeepsTheEnds(chain);
    TrimKeepsTheRecent(chain);
    if k > KEEP_RECENT {
      assert chain[k - KEEP_RECENT..] == ids[k - KEEP_RECENT..k];
    }
  }
}
