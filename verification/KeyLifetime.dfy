/** How long the cache answers for a key: counted from the last store of it, and never past a `clear`. */
module KeyLifetime {
  import opened Basics
  import opened Encoding
  import opened KeyCache

  /** When this wrapped key was last stored, unless the cache was cleared since. */
  function LastStore(ops: seq<Op>, wrapped: seq<byte>, version: nat): Option<int> {
    if ops == [] then None
    else
      match ops[|ops| - 1]
      case Clear => None
      case Put(w, v, now) =>
        if w == wrapped && v == version then Some(now) else LastStore(ops[..|ops| - 1], wrapped, version)
  }

  /** The slots agree about this key. */
  predicate SameFor(a: seq<Slot>, b: seq<Slot>, cacheKey: string) {
    && (Has(a, cacheKey) <==> Has(b, cacheKey))
    && (Has(a, cacheKey) ==> a[IndexOf(a, cacheKey)] == b[IndexOf(b, cacheKey)])
  }

  lemma {:induction false} WithoutAnother(slots: seq<Slot>, o: nat, k: nat)
    requires AreDistinct(slots) && k < |slots| && o < |slots| && k != o
    ensures SameFor(Without(slots, o), slots, slots[k].cacheKey)
  {
    WithoutKeepsDistinct(slots, o);
    IndexOfIs(slots, k);
    IndexOfIs(Without(slots, o), if k < o then k else k - 1);
  }

  lemma {:induction false} WithoutIt(slots: seq<Slot>, o: nat)
    requires AreDistinct(slots) && o < |slots|
    ensures !Has(Without(slots, o), slots[o].cacheKey)
  {
    var rest := Without(slots, o);
    forall i | 0 <= i < |rest| ensures rest[i].cacheKey != slots[o].cacheKey {
      assert rest[i] == slots[if i < o then i else i + 1];
    }
  }

  lemma {:induction false} RoomOnlyDrops(limits: Limits, slots: seq<Slot>, cacheKey: string)
    requires AreDistinct(slots)
    ensures SameFor(Room(limits, slots), slots, cacheKey)
         || (IsFull(limits, slots) && !Has(Room(limits, slots), cacheKey))
  {
    hide AreDistinct, Oldest, Without;
    if IsFull(limits, slots) {
      if !Has(slots, cacheKey) {
        RoomHasNoMore(limits, slots, cacheKey);
      } else if IndexOf(slots, cacheKey) == Oldest(slots) {
        WithoutIt(slots, Oldest(slots));
      } else {
        WithoutAnother(slots, Oldest(slots), IndexOf(slots, cacheKey));
      }
    }
  }

  lemma {:induction false} SetLeavesOthers(slots: seq<Slot>, slot: Slot, cacheKey: string)
    requires AreDistinct(slots) && slot.cacheKey != cacheKey
    ensures SameFor(SetSlot(slots, slot), slots, cacheKey)
  {
    SetKeepsDistinct(slots, slot);
    var after := SetSlot(slots, slot);
    if Has(slots, cacheKey) {
      assert after[IndexOf(slots, cacheKey)] == slots[IndexOf(slots, cacheKey)];
      IndexOfIs(after, IndexOf(slots, cacheKey));
    } else {
      SetHasNoMore(slots, slot, cacheKey);
    }
  }

  lemma {:induction false} SetIsFound(slots: seq<Slot>, slot: Slot)
    requires AreDistinct(slots)
    ensures var after := SetSlot(slots, slot);
            Has(after, slot.cacheKey) && after[IndexOf(after, slot.cacheKey)] == slot
  {
    SetKeepsDistinct(slots, slot);
    IndexOfIs(SetSlot(slots, slot), IndexOf(slots, slot.cacheKey));
  }

  lemma {:induction false} RoomIsDistinct(limits: Limits, slots: seq<Slot>)
    requires AreDistinct(slots)
    ensures AreDistinct(Room(limits, slots))
  {
    if IsFull(limits, slots) {
      WithoutKeepsDistinct(slots, Oldest(slots));
    }
  }

  lemma {:induction false} StoreIsFound(limits: Limits, slots: seq<Slot>, op: Op, wrapped: seq<byte>, version: nat)
    requires AreDistinct(slots) && op.Put?
    ensures var after, cacheKey := Step(limits, slots, op), CacheKey(version, wrapped);
            if op.wrapped == wrapped && op.version == version then
              Has(after, cacheKey) && after[IndexOf(after, cacheKey)].expiresAt == op.now + limits.ttl
            else
              SameFor(after, slots, cacheKey) || (IsFull(limits, slots) && !Has(after, cacheKey))
  {
    hide AreDistinct, Room, SetSlot, CacheKey, Has;
    RoomIsDistinct(limits, slots);
    var room, slot := Room(limits, slots), SlotOf(limits, op);
    if op.wrapped == wrapped && op.version == version {
      SetIsFound(room, slot);
    } else {
      if slot.cacheKey == CacheKey(version, wrapped) {
        CacheKeyIsInjective(op.version, op.wrapped, version, wrapped);
      }
      RoomOnlyDrops(limits, slots, CacheKey(version, wrapped));
      SetLeavesOthers(room, slot, CacheKey(version, wrapped));
    }
  }

  lemma {:induction false} FewSlots(limits: Limits, ops: seq<Op>)
    ensures AreDistinct(After(limits, [], ops)) && Fits(limits, After(limits, [], ops))
    ensures |After(limits, [], ops)| <= |ops|
  {
    hide Room, SetSlot, AreDistinct, Fits;
    if ops == [] {
      NoneAreDistinct();
      NoneFit(limits);
    } else {
      var before, op := ops[..|ops| - 1], ops[|ops| - 1];
      FewSlots(limits, before);
      StepKeepsSlots(limits, After(limits, [], before), op);
      StepAddsOne(limits, After(limits, [], before), op);
    }
  }

  lemma NoneFit(limits: Limits)
    ensures Fits(limits, [])
  {
  }

  lemma {:induction false} StepAddsOne(limits: Limits, slots: seq<Slot>, op: Op)
    ensures |Step(limits, slots, op)| <= |slots| + 1
  {
  }

  lemma {:induction false} SlotIsTheLastStore(limits: Limits, ops: seq<Op>, wrapped: seq<byte>, version: nat)
    ensures var slots, cacheKey := After(limits, [], ops), CacheKey(version, wrapped);
            var last := LastStore(ops, wrapped, version);
            && (Has(slots, cacheKey) ==>
                  last.Some? && slots[IndexOf(slots, cacheKey)].expiresAt == last.value + limits.ttl)
            && (|ops| <= limits.maxEntries && last.Some? ==> Has(slots, cacheKey))
  {
    hide Step, AreDistinct, CacheKey, Fits;
    if ops != [] {
      var before, op := ops[..|ops| - 1], ops[|ops| - 1];
      SlotIsTheLastStore(limits, before, wrapped, version);
      FewSlots(limits, before);
      if op.Put? {
        StoreIsFound(limits, After(limits, [], before), op, wrapped, version);
      } else {
        ClearLeavesNone(limits, After(limits, [], before), CacheKey(version, wrapped));
      }
    }
  }

  lemma ClearLeavesNone(limits: Limits, slots: seq<Slot>, cacheKey: string)
    ensures !Has(Step(limits, slots, Clear), cacheKey)
  {
  }

  /**
   * A look-up is answered from the cache only within the lifetime, counted from the last store of
   * that very key and version with no `clear` since; and always then, as long as the cache never
   * had to make room.
   */
  lemma {:induction false} HitsAreFresh(limits: Limits, ops: seq<Op>, wrapped: seq<byte>, version: nat, later: int)
    ensures var hit := IsHit(After(limits, [], ops), CacheKey(version, wrapped), later);
            var last := LastStore(ops, wrapped, version);
            && (hit ==> last.Some? && later < last.value + limits.ttl)
            && (|ops| <= limits.maxEntries ==> (hit <==> last.Some? && later < last.value + limits.ttl))
  {
    hide After, CacheKey;
    SlotIsTheLastStore(limits, ops, wrapped, version);
  }

  /** The answer to a miss is in the cache for exactly its lifetime, whatever was there before. */
  lemma {:induction false} StoredIsHitExactly(
      limits: Limits, slots: seq<Slot>, wrapped: seq<byte>, version: nat, now: int, later: int)
    requires AreDistinct(slots)
    ensures IsHit(Step(limits, slots, Put(wrapped, version, now)), CacheKey(version, wrapped), later)
       <==> later < now + limits.ttl
  {
    hide AreDistinct, Step, CacheKey;
    StoreIsFound(limits, slots, Put(wrapped, version, now), wrapped, version);
  }
}
