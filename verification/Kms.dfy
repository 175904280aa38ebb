/**
 * The cache of unwrapped data keys. Its buffers are shared with callers, so what is zeroed,
 * and when, is part of what is stated. The inner provider is a function of the wrapped key
 * and its version, handing out a fresh buffer each time.
 */
module Kms {
  import opened Basics
  import opened Encoding
  import opened KeyCache
  import opened KeyLifetime

  datatype Failure = EncryptionFailure

  type Unwrapper = (seq<byte>, nat) -> Result<seq<byte>, Failure>

  datatype Entry = Entry(slot: Slot, buffer: array<byte>)

  function SlotsOf(entries: seq<Entry>): (slots: seq<Slot>)
    ensures |slots| == |entries| && forall i :: 0 <= i < |slots| ==> slots[i] == entries[i].slot
  {
    seq(|entries|, i requires 0 <= i < |entries| => entries[i].slot)
  }

  function BuffersOf(entries: seq<Entry>): set<array<byte>> {
    set e <- entries :: e.buffer
  }

  predicate HaveOwnBuffers(entries: seq<Entry>) {
    forall i, j :: 0 <= i < j < |entries| ==> entries[i].buffer != entries[j].buffer
  }

  predicate IsZeroed(bytes: seq<byte>) {
    forall i :: 0 <= i < |bytes| ==> bytes[i] == 0
  }

  /** Only what the inner provider answers is stored. */
  predicate IsAnswered(inner: Unwrapper, op: Op) {
    op.Put? ==> inner(op.wrapped, op.version).Ok?
  }

  predicate AreAnswered(inner: Unwrapper, ops: seq<Op>) {
    forall op <- ops :: IsAnswered(inner, op)
  }

  method Zero(buffer: array<byte>)
    modifies buffer
    ensures IsZeroed(buffer[..])
  {
    forall i | 0 <= i < buffer.Length {
      buffer[i] := 0;
    }
  }

  lemma {:induction false} OwnBuffersAreHeld(entries: seq<Entry>)
    ensures forall e <- entries :: e.buffer in BuffersOf(entries)
  {
  }

  lemma {:induction false} WithoutIsShorter<T>(s: seq<T>, k: nat)
    requires k < |s|
    ensures |Without(s, k)| == |s| - 1
  {
  }

  lemma {:induction false} WithoutOne(entries: seq<Entry>, k: nat)
    requires k < |entries| && HaveOwnBuffers(entries)
    ensures BuffersOf(Without(entries, k)) == BuffersOf(entries) - {entries[k].buffer}
    ensures HaveOwnBuffers(Without(entries, k)) && SlotsOf(Without(entries, k)) == Without(SlotsOf(entries), k)
    ensures forall e <- entries :: e == entries[k] || e in Without(entries, k)
    ensures forall e <- Without(entries, k) :: e in entries && e.buffer != entries[k].buffer
  {
    var rest := Without(entries, k);
    forall e <- entries | e.buffer != entries[k].buffer ensures e in rest {
      var i :| 0 <= i < |entries| && entries[i] == e;
      assert i < k ==> rest[i] == e;
      assert i > k ==> rest[i - 1] == e;
    }
  }

  lemma {:induction false} UpdateOne(entries: seq<Entry>, k: nat, e: Entry)
    requires k < |entries| && HaveOwnBuffers(entries) && e.buffer !in BuffersOf(entries)
    ensures var after := entries[k := e];
            && HaveOwnBuffers(after) && SlotsOf(after) == SlotsOf(entries)[k := e.slot] && e in after
            && BuffersOf(after) == BuffersOf(entries) - {entries[k].buffer} + {e.buffer}
    ensures forall d <- entries :: d == entries[k] || d in entries[k := e]
    ensures forall d <- entries[k := e] :: d == e || (d in entries && d.buffer != entries[k].buffer)
  {
    var after := entries[k := e];
    assert after[k] == e;
    forall i | 0 <= i < |entries| && i != k ensures entries[i] in after && entries[i].buffer != entries[k].buffer {
      assert after[i] == entries[i];
    }
    forall d <- entries | d.buffer != entries[k].buffer ensures d in after {
      var i :| 0 <= i < |entries| && entries[i] == d;
    }
  }

  lemma {:induction false} AppendOne(entries: seq<Entry>, e: Entry)
    requires HaveOwnBuffers(entries) && e.buffer !in BuffersOf(entries)
    ensures var after := entries + [e];
            && HaveOwnBuffers(after) && SlotsOf(after) == SlotsOf(entries) + [e.slot] && e in after
            && BuffersOf(after) == BuffersOf(entries) + {e.buffer}
  {
    assert (entries + [e])[|entries|] == e;
  }

  class CachingKms {
    const inner: Unwrapper
    const limits: Limits
    /** The `Map`, in insertion order. */
    var entries: seq<Entry>

    function Buffers(): set<array<byte>>
      reads this
    {
      BuffersOf(entries)
    }

    function Slots(): seq<Slot>
      reads this
    {
      SlotsOf(entries)
    }

    /** The buffer holds the inner provider's answer for whatever its key stands for. */
    ghost predicate Answers(e: Entry)
      reads e.buffer
    {
      forall v: nat, w: seq<byte> :: e.slot.cacheKey == CacheKey(v, w) ==> inner(w, v) == Ok(e.buffer[..])
    }

    ghost predicate Valid()
      reads this, Buffers()
    {
      && Fits(limits, Slots()) && AreDistinct(Slots()) && HaveOwnBuffers(entries)
      && forall e <- entries :: Answers(e)
    }

    /** What has become of an entry whose buffer held these bytes. */
    ghost predicate Fared(e: Entry, bytes: seq<byte>, fate: Fate)
      reads this, e.buffer
    {
      match fate
      case Cached => e in entries && e.buffer[..] == bytes
      case Replaced => e.buffer !in Buffers() && e.buffer[..] == bytes
      case Zeroed => e.buffer !in Buffers() && |e.buffer[..]| == |bytes| && IsZeroed(e.buffer[..])
    }

    constructor (inner: Unwrapper, limits: Limits)
      ensures Valid() && entries == [] && this.inner == inner && this.limits == limits
    {
      this.inner, this.limits := inner, limits;
      entries := [];
    }

    method FindOldest() returns (k: nat)
      requires entries != []
      ensures k == Oldest(Slots())
    {
      k := 0;
      for i := 1 to |entries|
        invariant k < i
        invariant forall j :: 0 <= j < i ==> entries[k].slot.expiresAt <= entries[j].slot.expiresAt
        invariant forall j :: 0 <= j < k ==> entries[k].slot.expiresAt < entries[j].slot.expiresAt
      {
        if entries[i].slot.expiresAt < entries[k].slot.expiresAt {
          k := i;
        }
      }
      OldestIs(Slots(), k);
    }

    /** Removes the entry that expires soonest and zeroes its buffer, and no other. */
    method EvictOldest()
      requires Valid() && entries != []
      modifies this`entries, Buffers()
      ensures Valid() && Slots() == Without(old(Slots()), Oldest(old(Slots()))) && Buffers() <= old(Buffers())
      ensures var oldest := old(Slots())[Oldest(old(Slots()))];
              forall e <- old(entries) ::
                Fared(e, old(e.buffer[..]), if e.slot.cacheKey == oldest.cacheKey then Zeroed else Cached)
    {
      hide AreDistinct, HaveOwnBuffers, Without, Oldest;
      var k := FindOldest();
      forall i | 0 <= i < |entries| && entries[i].slot.cacheKey == entries[k].slot.cacheKey ensures i == k {
        IndexOfIs(Slots(), i);
        IndexOfIs(Slots(), k);
      }
      WithoutOne(entries, k);
      WithoutKeepsDistinct(Slots(), k);
      WithoutIsShorter(Slots(), k);
      Zero(entries[k].buffer);
      entries := Without(entries, k);
    }

    /** `cache.set`: an entry under the same key is replaced where it stands, its buffer left alone. */
    method Set(e: Entry)
      requires Valid() && Answers(e) && e.buffer !in Buffers()
      requires |entries| < Cap(limits)
      modifies this`entries
      ensures Valid() && Slots() == SetSlot(old(Slots()), e.slot) && e in entries
      ensures Buffers() <= old(Buffers()) + {e.buffer}
      ensures forall d <- old(entries) ::
                Fared(d, d.buffer[..], if d.slot.cacheKey == e.slot.cacheKey then Replaced else Cached)
    {
      hide HaveOwnBuffers, AreDistinct;
      SetKeepsDistinct(Slots(), e.slot);
      forall i | 0 <= i < |entries| ensures IndexOf(Slots(), entries[i].slot.cacheKey) == i {
        IndexOfIs(Slots(), i);
      }
      var k := IndexOf(Slots(), e.slot.cacheKey);
      if k < |entries| {
        UpdateOne(entries, k, e);
        entries := entries[k := e];
      } else {
        AppendOne(entries, e);
        entries := entries + [e];
      }
    }

    /** Drops and zeroes every cached key. */
    method Clear()
      requires Valid()
      modifies this`entries, Buffers()
      ensures Valid() && entries == []
      ensures forall e <- old(entries) :: IsZeroed(e.buffer[..])
    {
      for i := 0 to |entries|
        invariant entries == old(entries)
        invariant forall j :: 0 <= j < i ==> IsZeroed(entries[j].buffer[..])
      {
        Zero(entries[i].buffer);
      }
      entries := [];
    }

    /** The look-up: only an entry that has not expired counts. */
    method Lookup(wrapped: seq<byte>, version: nat, now: int) returns (hit: Option<array<byte>>)
      requires Valid()
      ensures hit.Some? <==> IsHit(Slots(), CacheKey(version, wrapped), now)
      ensures hit.Some? ==>
                exists e <- entries :: e.slot.cacheKey == CacheKey(version, wrapped) && e.buffer == hit.value
      ensures hit.Some? ==> inner(wrapped, version) == Ok(hit.value[..])
    {
      var k := IndexOf(Slots(), CacheKey(version, wrapped));
      if k < |entries| && entries[k].slot.expiresAt > now {
        assert Answers(entries[k]);
        hit := Some(entries[k].buffer);
      } else {
        hit := None;
      }
    }

    lemma AnswersForItsKey(wrapped: seq<byte>, version: nat, e: Entry)
      requires e.slot.cacheKey == CacheKey(version, wrapped) && inner(wrapped, version) == Ok(e.buffer[..])
      ensures Answers(e)
    {
      forall v: nat, w: seq<byte> | e.slot.cacheKey == CacheKey(v, w) ensures inner(w, v) == Ok(e.buffer[..]) {
        CacheKeyIsInjective(v, w, version, wrapped);
      }
    }

    method MakeRoom()
      requires Valid()
      modifies this`entries, Buffers()
      ensures Valid() && Slots() == Room(limits, old(Slots())) && |entries| < Cap(limits) && Buffers() <= old(Buffers())
      ensures var slots := old(Slots());
              forall e <- old(entries) ::
                Fared(e, old(e.buffer[..]),
                      if IsFull(limits, slots) && slots[Oldest(slots)].cacheKey == e.slot.cacheKey then Zeroed
                      else Cached)
    {
      hide AreDistinct, HaveOwnBuffers, Oldest, SlotsOf;
      if entries != [] && |entries| >= limits.maxEntries {
        EvictOldest();
      }
    }

    /** What happens when the inner provider has answered: make room, then remember the key. */
    method Store(wrapped: seq<byte>, version: nat, key: array<byte>, now: int)
      requires Valid() && key !in Buffers() && inner(wrapped, version) == Ok(key[..])
      modifies this`entries, Buffers()
      ensures Valid() && Buffers() <= old(Buffers()) + {key}
      ensures Entry(SlotOf(limits, Put(wrapped, version, now)), key) in entries && key[..] == old(key[..])
      ensures Slots() == Step(limits, old(Slots()), Put(wrapped, version, now))
      ensures var op, slots := Put(wrapped, version, now), old(Slots());
              forall e <- old(entries) :: Fared(e, old(e.buffer[..]), FateStep(limits, slots, e.slot.cacheKey, op))
    {
      hide AreDistinct, HaveOwnBuffers, Oldest, Room, SetSlot, SlotsOf, CacheKey, Answers, Fits,
        Without, IndexOf, BuffersOf, IsZeroed;
      OwnBuffersAreHeld(entries);
      MakeRoom();
      var e := Entry(Slot(CacheKey(version, wrapped), now + limits.ttl), key);
      AnswersForItsKey(wrapped, version, e);
      Set(e);
    }

    /** A fresh buffer with the inner provider's answer. */
    method Ask(wrapped: seq<byte>, version: nat) returns (answer: Result<array<byte>, Failure>)
      ensures match answer
              case Ok(key) => fresh(key) && inner(wrapped, version) == Ok(key[..])
              case Err(e) => inner(wrapped, version) == Err(e)
    {
      match inner(wrapped, version)
      case Ok(bytes) =>
        var key := new byte[|bytes|](i requires 0 <= i < |bytes| => bytes[i]);
        assert key[..] == bytes;
        answer := Ok(key);
      case Err(e) =>
        answer := Err(e);
    }

    method Perform(op: Op)
      requires Valid() && IsAnswered(inner, op)
      modifies this`entries, Buffers()
      ensures Valid() && fresh(Buffers() - old(Buffers()))
      ensures Slots() == Step(limits, old(Slots()), op)
      ensures var slots := old(Slots());
              forall e <- old(entries) :: Fared(e, old(e.buffer[..]), FateStep(limits, slots, e.slot.cacheKey, op))
    {
      match op
      case Clear =>
        Clear();
      case Put(wrapped, version, now) =>
        var answer := Ask(wrapped, version);
        Store(wrapped, version, answer.value, now);
    }

    /** What other callers do to the cache while one of them waits, one change after another. */
    method Others(ops: seq<Op>)
      requires Valid() && AreAnswered(inner, ops)
      modifies this`entries, Buffers()
      ensures Valid() && fresh(Buffers() - old(Buffers()))
      ensures Slots() == After(limits, old(Slots()), ops)
      ensures var slots := old(Slots());
              forall e <- old(entries) :: Fared(e, old(e.buffer[..]), FateOf(limits, slots, e.slot.cacheKey, ops))
    {
      hide AreDistinct, HaveOwnBuffers, Step, FateStep, SlotsOf, CacheKey, Answers, Fits,
        IndexOf, IsZeroed, IsFull, Oldest, After, FateOf, Slots;
      AtOnce(limits, Slots());
      for i := 0 to |ops|
        invariant Valid() && fresh(Buffers() - old(Buffers()))
        invariant Slots() == After(limits, old(Slots()), ops[..i])
        invariant var slots := old(Slots());
                  forall e <- old(entries) ::
                    Fared(e, old(e.buffer[..]), FateOf(limits, slots, e.slot.cacheKey, ops[..i]))
      {
        OneMore(limits, old(Slots()), ops[..i], ops[i]);
        assert ops[..i + 1] == ops[..i] + [ops[i]];
        Perform(ops[i]);
      }
      assert ops[..|ops|] == ops;
    }

    /** A miss: others go on while the inner provider is asked, and then the answer is stored. */
    method Miss(wrapped: seq<byte>, version: nat, now: int, others: seq<Op>)
      returns (result: Result<array<byte>, Failure>)
      requires Valid() && AreAnswered(inner, others)
      modifies this`entries, Buffers()
      ensures Valid() && fresh(Buffers() - old(Buffers()))
      ensures match result
              case Ok(key) =>
                && fresh(key) && inner(wrapped, version) == Ok(key[..])
                && Entry(SlotOf(limits, Put(wrapped, version, now)), key) in entries
              case Err(e) => inner(wrapped, version) == Err(e)
      ensures var ops, slots := others + if result.Ok? then [Put(wrapped, version, now)] else [], old(Slots());
              && Slots() == After(limits, slots, ops)
              && forall e <- old(entries) :: Fared(e, old(e.buffer[..]), FateOf(limits, slots, e.slot.cacheKey, ops))
    {
      hide AreDistinct, HaveOwnBuffers, Step, FateStep, SlotsOf, CacheKey, Answers, Fits,
        IsZeroed, IsFull, After, FateOf, SlotOf, IndexOf, Oldest, Without, Slots, Room, SetSlot;
      result := Ask(wrapped, version);
      assert result.Ok? ==> result.value !in Buffers();
      Others(others);
      if result.Err? {
        assert others + [] == others;
      } else {
        assert result.value !in Buffers();
        OneMore(limits, old(Slots()), others, Put(wrapped, version, now));
        Store(wrapped, version, result.value, now);
      }
    }

    /**
     * The cached answer is the inner provider's, success or failure; the caller gets the
     * cache's own buffer. The clock is read once, before the inner provider is asked.
     */
    method UnwrapDataKey(wrapped: seq<byte>, version: nat, now: int, others: seq<Op>)
      returns (result: Result<array<byte>, Failure>)
      requires Valid() && AreAnswered(inner, others)
      modifies this`entries, Buffers()
      ensures Valid() && fresh(Buffers() - old(Buffers()))
      ensures match result
              case Ok(key) =>
                && inner(wrapped, version) == Ok(key[..])
                && exists e <- entries :: e.slot.cacheKey == CacheKey(version, wrapped) && e.buffer == key
              case Err(e) => inner(wrapped, version) == Err(e)
      ensures IsHit(old(Slots()), CacheKey(version, wrapped), now) ==>
                result.Ok? && entries == old(entries) && forall b <- Buffers() :: b[..] == old(b[..])
      ensures !IsHit(old(Slots()), CacheKey(version, wrapped), now) && result.Ok? ==> fresh(result.value)
      ensures var ops, slots := Steps(old(Slots()), wrapped, version, now, result.Ok?, others), old(Slots());
              && Slots() == After(limits, slots, ops)
              && forall e <- old(entries) :: Fared(e, old(e.buffer[..]), FateOf(limits, slots, e.slot.cacheKey, ops))
    {
      hide AreDistinct, HaveOwnBuffers, Step, FateStep, SlotsOf, CacheKey, Answers, Fits, IsZeroed;
      var hit := Lookup(wrapped, version, now);
      if hit.Some? {
        result := Ok(hit.value);
      } else {
        result := Miss(wrapped, version, now, others);
        assert result.Err? ==> others + [] == others;
      }
    }

    lemma OneForEachKey(d: Entry, e: Entry)
      requires AreDistinct(SlotsOf(entries)) && d in entries && e in entries && d.slot.cacheKey == e.slot.cacheKey
      ensures d == e
    {
    }

    /** On a hit the caller is given the buffer of the only entry there is. */
    method AskAgain(wrapped: seq<byte>, version: nat, now: int, first: array<byte>)
      returns (second: array<byte>)
      requires Valid() && inner(wrapped, version).Ok?
      requires exists e <- entries :: e.slot.cacheKey == CacheKey(version, wrapped) && e.buffer == first
      modifies this`entries, Buffers()
      ensures Valid() && inner(wrapped, version) == Ok(second[..])
      ensures first == second <==> IsHit(old(Slots()), CacheKey(version, wrapped), now)
    {
      hide AreDistinct, HaveOwnBuffers, Step, SlotsOf, Fits, CacheKey, Oldest, Answers, FateOf, After, IsFull, IsHit,
        Fared, Steps, Slots;
      ghost var d :| d in entries && d.slot.cacheKey == CacheKey(version, wrapped) && d.buffer == first;
      assert AreDistinct(SlotsOf(entries)) by { DistinctSlots(); }
      var result := UnwrapDataKey(wrapped, version, now, []);
      second := result.value;
      if IsHit(old(Slots()), CacheKey(version, wrapped), now) {
        ghost var e :| e in entries && e.slot.cacheKey == CacheKey(version, wrapped) && e.buffer == second;
        OneForEachKey(d, e);
      }
    }

    lemma DistinctSlots()
      requires Valid()
      ensures AreDistinct(SlotsOf(entries))
    {
    }

    /**
     * A key that was not cached, asked for twice with nobody in between: the second caller is given
     * the first one's buffer exactly while `ttl` has not passed, and a fresh answer after that.
     */
    method AskTwice(wrapped: seq<byte>, version: nat, now: int, later: int)
      returns (first: array<byte>, second: array<byte>)
      requires Valid() && inner(wrapped, version).Ok?
      requires !IsHit(Slots(), CacheKey(version, wrapped), now)
      modifies this`entries, Buffers()
      ensures Valid() && inner(wrapped, version) == Ok(second[..])
      ensures first == second <==> later < now + limits.ttl
    {
      hide AreDistinct, HaveOwnBuffers, Step, SlotsOf, Fits, CacheKey, Oldest, Answers, FateOf, After, IsFull, IsHit,
        Fared;
      ghost var slots := Slots();
      AtOnce(limits, slots);
      OneMore(limits, slots, [], Put(wrapped, version, now));
      StoredIsHitExactly(limits, slots, wrapped, version, now, later);
      var one := UnwrapDataKey(wrapped, version, now, []);
      first := one.value;
      second := AskAgain(wrapped, version, later, first);
    }

    /**
     * The price of sharing: with a full cache, a caller handed the key that expires soonest
     * holds zeros as soon as anyone is given a key that was not cached.
     */
    method HeldKeyIsLost(first: seq<byte>, v: nat, now: int, second: seq<byte>, v': nat, later: int)
      returns (held: array<byte>)
      requires Valid() && IsFull(limits, Slots())
      requires IsHit(Slots(), CacheKey(v, first), now)
      requires IndexOf(Slots(), CacheKey(v, first)) == Oldest(Slots())
      requires !IsHit(Slots(), CacheKey(v', second), later) && inner(second, v').Ok?
      modifies this`entries, Buffers()
      ensures held in old(Buffers()) && inner(first, v) == Ok(old(held[..])) && IsZeroed(held[..])
    {
      hide AreDistinct, HaveOwnBuffers, Step, SlotsOf, Fits, CacheKey, Oldest, Answers, FateOf, After, IsFull, IsHit;
      ghost var slots := Slots();
      AtOnce(limits, slots);
      assert [] + [Put(second, v', later)] == [Put(second, v', later)];
      OldestIsDropped(limits, slots, CacheKey(v, first), Put(second, v', later));
      var one := UnwrapDataKey(first, v, now, []);
      held := one.value;
      var two := UnwrapDataKey(second, v', later, []);
    }
  }
}
