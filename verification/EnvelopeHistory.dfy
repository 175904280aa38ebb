/**
 * One stored record over the years: new master keys, rotations that fetch their data key
 * through the cache, and everything else that the cache is used for.
 */
module EnvelopeHistory {
  import opened Basics
  import opened KeyCache
  import opened Envelope
  import opened EnvelopeService

  datatype State = State(provider: Provider, payload: Payload, slots: seq<Slot>)

  /** A restart with a new master key, use of the cache by others, and a rotation of this record. */
  datatype Event =
    | NewMaster(master: Bytes)
    | Used(ops: seq<Op>)
    | Rewrap(random: Random, now: int, others: seq<Op>, gap: seq<Op>)

  predicate Loses(limits: Limits, s: State, e: Event)
    requires e.Rewrap?
  {
    LosesKey(limits, s.slots, s.payload.wrappedKey, s.payload.keyVersion, e.now, e.others, e.gap)
  }

  /**
   * A master key of the wrong length is refused at start-up; a restart empties the cache; and
   * a rotation that fails persists nothing.
   */
  ghost function Next(c: Cipher, limits: Limits, s: State, context: Context, e: Event): State
    requires IsProvider(s.provider)
  {
    match e
    case NewMaster(master) =>
      var made := NewProvider(master, s.provider.keks);
      if made.Ok? then s.(provider := made.value, slots := []) else s
    case Used(ops) =>
      s.(slots := After(limits, s.slots, ops))
    case Rewrap(r, now, others, gap) =>
      var rotated := RotatedWith(c, s.provider, s.payload, context, r, Loses(limits, s, e));
      State(s.provider,
            if rotated.Ok? then rotated.value else s.payload,
            if s.payload.keyVersion == s.provider.current then s.slots
            else SlotsAfter(c, s.provider, limits, s.slots, s.payload, now, others, gap))
  }

  ghost function Run(c: Cipher, limits: Limits, s: State, context: Context, events: seq<Event>): (t: State)
    requires IsProvider(s.provider)
    ensures IsProvider(t.provider)
    decreases |events|
  {
    if events == [] then s
    else
      var before, e := Run(c, limits, s, context, events[..|events| - 1]), events[|events| - 1];
      NextKeepsProvider(c, limits, before, context, e);
      Next(c, limits, before, context, e)
  }

  lemma {:induction false} NextKeepsProvider(c: Cipher, limits: Limits, s: State, context: Context, e: Event)
    requires IsProvider(s.provider)
    ensures IsProvider(Next(c, limits, s, context, e).provider)
  {
  }

  ghost function Stored(c: Cipher, p: Provider, plain: Bytes, context: Context, r: Random): State
    requires IsProvider(p) && context.userId != "" && context.field != ""
  {
    State(p, Encrypted(c, p, plain, context, r).value, [])
  }

  /** A rotation whose cipher works, and whose key, if lost, does not open the record as something else. */
  ghost predicate IsHarmless(c: Cipher, limits: Limits, s: State, context: Context, plain: Bytes, e: Event)
    requires IsProvider(s.provider)
  {
    e.Rewrap? ==>
      && IsRandom(e.random) && (forall x <- SealingsOf(s.provider, plain, context, e.random) :: OpensAs(c, x))
      && (Loses(limits, s, e) && s.payload.keyVersion != s.provider.current ==>
            var answer := DecryptedWith(c, s.provider, s.payload, context, true);
            answer.Err? || answer == Ok(plain))
  }

  lemma {:induction false} NextKeepsThePlaintext(
      c: Cipher, limits: Limits, s: State, context: Context, plain: Bytes, e: Event)
    requires IsProvider(s.provider) && context.userId != "" && context.field != ""
    requires Decrypted(c, s.provider, s.payload, context) == Ok(plain)
    requires IsHarmless(c, limits, s, context, plain, e)
    ensures var t := Next(c, limits, s, context, e); Decrypted(c, t.provider, t.payload, context) == Ok(plain)
  {
    hide DecryptedWith, NewProvider, Encrypted, LosesKey, SlotsAfter, After;
    match e
    case NewMaster(master) =>
      if NewProvider(master, s.provider.keks).Ok? {
        NewMasterStillDecrypts(c, s.provider, master, s.payload, context);
      }
    case Used(_) =>
    case Rewrap(r, _, _, _) =>
      RotateStillDecrypts(c, s.provider, s.payload, context, r, plain);
  }

  /**
   * Over any history of restarts, rotations and use of the cache, the stored record decrypts
   * to what was encrypted, as long as no lost key opens it as something else.
   */
  lemma {:induction false} HistoryKeepsThePlaintext(
      c: Cipher, limits: Limits, p: Provider, plain: Bytes, context: Context, r: Random, events: seq<Event>)
    requires IsProvider(p) && IsRandom(r) && context.userId != "" && context.field != ""
    requires forall x <- SealingsOf(p, plain, context, r) :: OpensAs(c, x)
    requires var start := Stored(c, p, plain, context, r);
             forall i :: 0 <= i < |events| ==>
               IsHarmless(c, limits, Run(c, limits, start, context, events[..i]), context, plain, events[i])
    ensures var s := Run(c, limits, Stored(c, p, plain, context, r), context, events);
            Decrypted(c, s.provider, s.payload, context) == Ok(plain)
    decreases |events|
  {
    hide Next, DecryptedWith, IsHarmless;
    if events == [] {
      DecryptUndoesEncrypt(c, p, plain, context, r);
    } else {
      var n, start := |events| - 1, Stored(c, p, plain, context, r);
      var before := events[..n];
      forall i | 0 <= i < n
        ensures IsHarmless(c, limits, Run(c, limits, start, context, before[..i]), context, plain, before[i])
      {
        assert before[..i] == events[..i];
      }
      HistoryKeepsThePlaintext(c, limits, p, plain, context, r, before);
      NextKeepsThePlaintext(c, limits, Run(c, limits, start, context, before), context, plain, events[n]);
    }
  }

  // ---- When a lost key does no harm ----

  /** Between being handed out and being used, the key is not cleared, and fewer keys are stored than its slack. */
  predicate IsQuick(limits: Limits, s: State, e: Event) {
    e.Rewrap? ==>
      var cacheKey := CacheKey(s.payload.keyVersion, s.payload.wrappedKey);
      var ops := Steps(s.slots, s.payload.wrappedKey, s.payload.keyVersion, e.now, true, e.others);
      var cached := After(limits, s.slots, ops);
      Fits(limits, cached) && Has(cached, cacheKey) && Clear !in e.gap && |e.gap| <= Slack(limits, cached, cacheKey)
  }

  lemma {:induction false} NextKeepsSlots(c: Cipher, limits: Limits, s: State, context: Context, e: Event)
    requires IsProvider(s.provider) && AreDistinct(s.slots) && Fits(limits, s.slots)
    ensures AreDistinct(Next(c, limits, s, context, e).slots) && Fits(limits, Next(c, limits, s, context, e).slots)
  {
    hide AreDistinct, Fits, After, Steps, NewProvider, RotatedWith, Unwrap, LosesKey;
    match e
    case NewMaster(_) =>
      NoneAreDistinct();
      NoneFit(limits);
    case Used(ops) =>
      AfterKeepsSlots(limits, s.slots, ops);
    case Rewrap(_, now, others, gap) =>
      var wrapped, version := s.payload.wrappedKey, s.payload.keyVersion;
      var ops := Steps(s.slots, wrapped, version, now, Unwrap(c, s.provider, wrapped, version).Ok?, others);
      AfterKeepsSlots(limits, s.slots, ops);
      AfterKeepsSlots(limits, After(limits, s.slots, ops), gap);
  }

  lemma {:induction false} NoneFit(limits: Limits)
    ensures Fits(limits, [])
  {
  }

  lemma {:induction false} RunKeepsSlots(c: Cipher, limits: Limits, s: State, context: Context, events: seq<Event>)
    requires IsProvider(s.provider) && AreDistinct(s.slots) && Fits(limits, s.slots)
    ensures var t := Run(c, limits, s, context, events); AreDistinct(t.slots) && Fits(limits, t.slots)
    decreases |events|
  {
    hide Next, AreDistinct, Fits;
    if events != [] {
      RunKeepsSlots(c, limits, s, context, events[..|events| - 1]);
      NextKeepsSlots(c, limits, Run(c, limits, s, context, events[..|events| - 1]), context, events[|events| - 1]);
    }
  }

  /** With any sound cipher: rotations that use their keys quickly keep the plaintext. */
  lemma {:induction false} QuickHistoryKeepsThePlaintext(
      c: Cipher, limits: Limits, p: Provider, plain: Bytes, context: Context, r: Random, events: seq<Event>)
    requires IsSound(c) && IsProvider(p) && IsRandom(r) && context.userId != "" && context.field != ""
    requires forall e <- events :: e.Rewrap? ==> IsRandom(e.random)
    requires forall i :: 0 <= i < |events| ==>
               IsQuick(limits, Run(c, limits, Stored(c, p, plain, context, r), context, events[..i]), events[i])
    ensures var s := Run(c, limits, Stored(c, p, plain, context, r), context, events);
            Decrypted(c, s.provider, s.payload, context) == Ok(plain)
  {
    var start := Stored(c, p, plain, context, r);
    forall i | 0 <= i < |events|
      ensures IsHarmless(c, limits, Run(c, limits, start, context, events[..i]), context, plain, events[i])
    {
      RunKeepsSlots(c, limits, start, context, events[..i]);
      QuickIsHarmless(c, limits, Run(c, limits, start, context, events[..i]), context, plain, events[i]);
    }
    HistoryKeepsThePlaintext(c, limits, p, plain, context, r, events);
  }

  lemma {:induction false} QuickIsHarmless(
      c: Cipher, limits: Limits, s: State, context: Context, plain: Bytes, e: Event)
    requires IsSound(c) && IsProvider(s.provider) && AreDistinct(s.slots) && Fits(limits, s.slots)
    requires IsQuick(limits, s, e) && (e.Rewrap? ==> IsRandom(e.random))
    ensures IsHarmless(c, limits, s, context, plain, e)
  {
    hide AreDistinct, Fits, After, Steps, Slack, LosesKey, DecryptedWith;
    if e.Rewrap? {
      HandedOutKeyIsSafe(limits, s.slots, s.payload.wrappedKey, s.payload.keyVersion, e.now, e.others, e.gap);
    }
  }

  /** With an ideal cipher: every history keeps the plaintext, whatever happens to the keys. */
  lemma {:induction false} IdealHistoryKeepsThePlaintext(
      c: Cipher, issued: set<Sealing>, limits: Limits, p: Provider, plain: Bytes, context: Context, r: Random,
      events: seq<Event>)
    requires IsIdeal(c, issued) && IsProvider(p) && IsRandom(r) && context.userId != "" && context.field != ""
    requires SealingsOf(p, plain, context, r) <= issued
    requires var start := Stored(c, p, plain, context, r);
             forall i :: 0 <= i < |events| && events[i].Rewrap? ==>
               && IsRandom(events[i].random)
               && var s := Run(c, limits, start, context, events[..i]);
                  SealingsOf(s.provider, plain, context, events[i].random) <= issued
    ensures var s := Run(c, limits, Stored(c, p, plain, context, r), context, events);
            Decrypted(c, s.provider, s.payload, context) == Ok(plain)
    decreases |events|
  {
    hide Next, DecryptedWith, IsHarmless, IsIdeal, SealingsOf;
    IdealOpens(c, issued, SealingsOf(p, plain, context, r));
    if events == [] {
      DecryptUndoesEncrypt(c, p, plain, context, r);
    } else {
      var n := |events| - 1;
      var before := events[..n];
      forall i | 0 <= i < n ensures before[..i] == events[..i] {
      }
      IdealHistoryKeepsThePlaintext(c, issued, limits, p, plain, context, r, before);
      var s := Run(c, limits, Stored(c, p, plain, context, r), context, before);
      IdealIsHarmless(c, issued, limits, s, context, plain, events[n]);
      NextKeepsThePlaintext(c, limits, s, context, plain, events[n]);
    }
  }

  lemma {:induction false} IdealIsHarmless(
      c: Cipher, issued: set<Sealing>, limits: Limits, s: State, context: Context, plain: Bytes, e: Event)
    requires IsIdeal(c, issued) && IsProvider(s.provider)
    requires Decrypted(c, s.provider, s.payload, context) == Ok(plain)
    requires e.Rewrap? ==> IsRandom(e.random) && SealingsOf(s.provider, plain, context, e.random) <= issued
    ensures IsHarmless(c, limits, s, context, plain, e)
  {
    hide DecryptedWith, IsIdeal, SealingsOf, LosesKey;
    if e.Rewrap? {
      IdealOpens(c, issued, SealingsOf(s.provider, plain, context, e.random));
      LostKeyOpensNothingElse(c, issued, s.provider, s.payload, context, plain);
    }
  }
}
