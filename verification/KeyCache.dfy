/**
 * Which entries the key cache holds, by their keys and expiry times alone: what storing
 * and clearing do to them, and what becomes of a buffer that one of them shares with a caller.
 */
module KeyCache {
  import opened Encoding
  import opened Decimals
  import opened Strings

  function CacheKey(version: nat, wrapped: seq<byte>): string {
    Decimal(version) + ":" + Base64(wrapped)
  }

  lemma {:induction false} CacheKeyIsInjective(v: nat, w: seq<byte>, v': nat, w': seq<byte>)
    requires CacheKey(v, w) == CacheKey(v', w')
    ensures v == v' && w == w'
  {
    assert ':' !in Decimal(v) && ':' !in Decimal(v');
    SplitsAtFirst(Decimal(v), Decimal(v'), Base64(w), Base64(w'), ':');
    DecimalIsInjective(v, v');
    Base64RoundTrip(w);
    Base64RoundTrip(w');
  }

  // ---- The entries ----

  datatype Limits = Limits(ttl: int, maxEntries: nat)

  /** An entry without its buffer. */
  datatype Slot = Slot(cacheKey: string, expiresAt: int)

  /** What changes the cache: storing the answer for a wrapped key, and `clear`. */
  datatype Op = Put(wrapped: seq<byte>, version: nat, now: int) | Clear

  predicate AreDistinct(slots: seq<Slot>) {
    forall i, j :: 0 <= i < j < |slots| ==> slots[i].cacheKey != slots[j].cacheKey
  }

  function IndexOf(slots: seq<Slot>, cacheKey: string): (k: nat)
    ensures k <= |slots|
    ensures k < |slots| ==> slots[k].cacheKey == cacheKey
    ensures forall i :: 0 <= i < k ==> slots[i].cacheKey != cacheKey
  {
    if slots == [] || slots[0].cacheKey == cacheKey then 0 else 1 + IndexOf(slots[1..], cacheKey)
  }

  predicate Has(slots: seq<Slot>, cacheKey: string) {
    IndexOf(slots, cacheKey) < |slots|
  }

  /** Only an entry that has not expired counts. */
  predicate IsHit(slots: seq<Slot>, cacheKey: string, now: int) {
    Has(slots, cacheKey) && slots[IndexOf(slots, cacheKey)].expiresAt > now
  }

  /** The entry an eviction removes: the first of those that expire soonest, in insertion order. */
  predicate IsOldest(slots: seq<Slot>, k: nat) {
    && k < |slots|
    && (forall i :: 0 <= i < |slots| ==> slots[k].expiresAt <= slots[i].expiresAt)
    && (forall i :: 0 <= i < k ==> slots[k].expiresAt < slots[i].expiresAt)
  }

  function Oldest(slots: seq<Slot>): (k: nat)
    requires slots != []
    ensures IsOldest(slots, k)
  {
    var last := |slots| - 1;
    if last == 0 then 0
    else
      var k := Oldest(slots[..last]);
      if slots[last].expiresAt < slots[k].expiresAt then last else k
  }

  function Without<T>(s: seq<T>, k: nat): seq<T>
    requires k < |s|
  {
    s[..k] + s[k + 1..]
  }

  /** A store finds no room; an empty cache takes an entry whatever its limit. */
  predicate IsFull(limits: Limits, slots: seq<Slot>) {
    slots != [] && |slots| >= limits.maxEntries
  }

  function Cap(limits: Limits): nat {
    if limits.maxEntries == 0 then 1 else limits.maxEntries
  }

  predicate Fits(limits: Limits, slots: seq<Slot>) {
    |slots| <= Cap(limits)
  }

  function Room(limits: Limits, slots: seq<Slot>): seq<Slot> {
    if IsFull(limits, slots) then Without(slots, Oldest(slots)) else slots
  }

  /** `cache.set`: an entry under the same key is replaced where it stands. */
  function SetSlot(slots: seq<Slot>, slot: Slot): seq<Slot> {
    var k := IndexOf(slots, slot.cacheKey);
    if k < |slots| then slots[k := slot] else slots + [slot]
  }

  function SlotOf(limits: Limits, op: Op): Slot
    requires op.Put?
  {
    Slot(CacheKey(op.version, op.wrapped), op.now + limits.ttl)
  }

  function Step(limits: Limits, slots: seq<Slot>, op: Op): seq<Slot> {
    match op
    case Clear => []
    case Put(_, _, _) => SetSlot(Room(limits, slots), SlotOf(limits, op))
  }

  function After(limits: Limits, slots: seq<Slot>, ops: seq<Op>): seq<Slot> {
    if ops == [] then slots
    else Step(limits, After(limits, slots, ops[..|ops| - 1]), ops[|ops| - 1])
  }

  /** What a look-up leads to, with what others do before the inner provider answers: a hit changes nothing. */
  function Steps(slots: seq<Slot>, wrapped: seq<byte>, version: nat, now: int, answered: bool, others: seq<Op>)
    : seq<Op>
  {
    if IsHit(slots, CacheKey(version, wrapped), now) then []
    else if answered then others + [Put(wrapped, version, now)]
    else others
  }

  // ---- What becomes of a buffer ----

  /** Still in the cache; replaced under its key and left alone; or dropped and overwritten with zeros. */
  datatype Fate = Cached | Replaced | Zeroed

  function FateStep(limits: Limits, slots: seq<Slot>, cacheKey: string, op: Op): Fate {
    match op
    case Clear => Zeroed
    case Put(_, _, _) =>
      if IsFull(limits, slots) && slots[Oldest(slots)].cacheKey == cacheKey then Zeroed
      else if SlotOf(limits, op).cacheKey == cacheKey then Replaced
      else Cached
  }

  /** The fate of the buffer that is in the cache under this key at first. */
  function FateOf(limits: Limits, slots: seq<Slot>, cacheKey: string, ops: seq<Op>): Fate {
    if ops == [] then Cached
    else
      var before, op := ops[..|ops| - 1], ops[|ops| - 1];
      var fate := FateOf(limits, slots, cacheKey, before);
      if fate != Cached then fate else FateStep(limits, After(limits, slots, before), cacheKey, op)
  }

  // ---- Slots stay distinct and within the limit ----

  lemma {:induction false} IndexOfIs(slots: seq<Slot>, k: nat)
    requires AreDistinct(slots) && k < |slots|
    ensures IndexOf(slots, slots[k].cacheKey) == k
  {
    var j := IndexOf(slots, slots[k].cacheKey);
    assert j <= k;
  }

  lemma {:induction false} WithoutKeepsDistinct(slots: seq<Slot>, k: nat)
    requires AreDistinct(slots) && k < |slots|
    ensures AreDistinct(Without(slots, k))
    ensures forall i :: 0 <= i < |slots| && i != k ==> Without(slots, k)[if i < k then i else i - 1] == slots[i]
  {
    var rest := Without(slots, k);
    forall i, j | 0 <= i < j < |rest| ensures rest[i].cacheKey != rest[j].cacheKey {
      assert rest[i] == slots[if i < k then i else i + 1];
      assert rest[j] == slots[if j < k then j else j + 1];
    }
  }

  lemma {:induction false} SetKeepsDistinct(slots: seq<Slot>, slot: Slot)
    requires AreDistinct(slots)
    ensures AreDistinct(SetSlot(slots, slot)) && |slots| <= |SetSlot(slots, slot)| <= |slots| + 1
  {
  }

  lemma {:induction false} StepKeepsSlots(limits: Limits, slots: seq<Slot>, op: Op)
    requires AreDistinct(slots) && Fits(limits, slots)
    ensures AreDistinct(Step(limits, slots, op)) && Fits(limits, Step(limits, slots, op))
  {
    hide AreDistinct, SetSlot;
    if op.Put? {
      if IsFull(limits, slots) {
        WithoutKeepsDistinct(slots, Oldest(slots));
      }
      SetKeepsDistinct(Room(limits, slots), SlotOf(limits, op));
    } else {
      NoneAreDistinct();
    }
  }

  lemma {:induction false} NoneAreDistinct()
    ensures AreDistinct([])
  {
  }

  lemma {:induction false} AfterKeepsSlots(limits: Limits, slots: seq<Slot>, ops: seq<Op>)
    requires AreDistinct(slots) && Fits(limits, slots)
    ensures AreDistinct(After(limits, slots, ops)) && Fits(limits, After(limits, slots, ops))
  {
    hide Step, AreDistinct, Fits;
    if ops != [] {
      AfterKeepsSlots(limits, slots, ops[..|ops| - 1]);
      StepKeepsSlots(limits, After(limits, slots, ops[..|ops| - 1]), ops[|ops| - 1]);
    }
  }

  lemma {:induction false} RoomKeepsOthers(limits: Limits, slots: seq<Slot>, slot: Slot)
    requires AreDistinct(slots) && slot in slots
    requires IsFull(limits, slots) ==> slots[Oldest(slots)].cacheKey != slot.cacheKey
    ensures slot in Room(limits, slots)
  {
    hide AreDistinct;
    if IsFull(limits, slots) {
      WithoutKeepsDistinct(slots, Oldest(slots));
    }
  }

  lemma {:induction false} SetKeepsOthers(slots: seq<Slot>, slot: Slot, other: Slot)
    requires other in slots && other.cacheKey != slot.cacheKey
    ensures other in SetSlot(slots, slot)
  {
    var k :| 0 <= k < |slots| && slots[k] == other;
    assert SetSlot(slots, slot)[k] == other;
  }

  /** An entry that is neither evicted nor replaced keeps its expiry time. */
  lemma {:induction false} StepKeepsCached(limits: Limits, slots: seq<Slot>, slot: Slot, op: Op)
    requires AreDistinct(slots) && slot in slots
    requires FateStep(limits, slots, slot.cacheKey, op) == Cached
    ensures slot in Step(limits, slots, op)
  {
    hide AreDistinct, Room, SetSlot;
    RoomKeepsOthers(limits, slots, slot);
    SetKeepsOthers(Room(limits, slots), SlotOf(limits, op), slot);
  }

  lemma {:induction false} CachedStays(limits: Limits, slots: seq<Slot>, slot: Slot, ops: seq<Op>)
    requires AreDistinct(slots) && Fits(limits, slots) && slot in slots
    requires FateOf(limits, slots, slot.cacheKey, ops) == Cached
    ensures slot in After(limits, slots, ops)
  {
    hide Step, FateStep, AreDistinct, Fits;
    if ops != [] {
      var before := ops[..|ops| - 1];
      CachedStays(limits, slots, slot, before);
      AfterKeepsSlots(limits, slots, before);
      StepKeepsCached(limits, After(limits, slots, before), slot, ops[|ops| - 1]);
    }
  }

  // ---- How long a buffer is safe ----

  /** How many of them expire at that time or before. */
  function CountBy(slots: seq<Slot>, time: int): nat {
    if slots == [] then 0 else (if slots[0].expiresAt <= time then 1 else 0) + CountBy(slots[1..], time)
  }

  lemma {:induction false} CountByAppend(a: seq<Slot>, b: seq<Slot>, time: int)
    ensures CountBy(a + b, time) == CountBy(a, time) + CountBy(b, time)
  {
    if a == [] {
      assert a + b == b;
    } else {
      assert (a + b)[1..] == a[1..] + b;
      CountByAppend(a[1..], b, time);
    }
  }

  lemma {:induction false} CountByOne(slots: seq<Slot>, k: nat, time: int)
    requires k < |slots|
    ensures CountBy(slots, time) == CountBy(Without(slots, k), time) + CountBy([slots[k]], time)
  {
    assert slots == slots[..k] + ([slots[k]] + slots[k + 1..]);
    CountByAppend(slots[..k], [slots[k]] + slots[k + 1..], time);
    CountByAppend([slots[k]], slots[k + 1..], time);
    CountByAppend(slots[..k], slots[k + 1..], time);
  }

  lemma {:induction false} CountByIsZero(slots: seq<Slot>, time: int)
    ensures CountBy(slots, time) == 0 <==> forall i :: 0 <= i < |slots| ==> slots[i].expiresAt > time
  {
    if slots != [] {
      CountByIsZero(slots[1..], time);
      assert forall i :: 0 < i < |slots| ==> slots[i] == slots[1..][i - 1];
      assert forall i :: 0 <= i < |slots| - 1 ==> slots[1..][i] == slots[i + 1];
    }
  }

  lemma {:induction false} CountByIsAll(slots: seq<Slot>, time: int)
    requires forall i :: 0 <= i < |slots| ==> slots[i].expiresAt <= time
    ensures CountBy(slots, time) == |slots|
  {
    if slots != [] {
      CountByIsAll(slots[1..], time);
    }
  }

  /** How many entries an eviction takes before this one. */
  function Ahead(slots: seq<Slot>, k: nat): nat
    requires k < |slots|
  {
    CountBy(slots[..k], slots[k].expiresAt) + CountBy(slots[k + 1..], slots[k].expiresAt - 1)
  }

  lemma {:induction false} OldestIs(slots: seq<Slot>, k: nat)
    requires IsOldest(slots, k)
    ensures k == Oldest(slots)
  {
    var o := Oldest(slots);
    assert slots[o].expiresAt <= slots[k].expiresAt <= slots[o].expiresAt;
  }

  /** The next to be evicted is the one with none ahead of it. */
  lemma {:induction false} OldestHasNoneAhead(slots: seq<Slot>, k: nat)
    requires k < |slots|
    ensures Ahead(slots, k) == 0 <==> IsOldest(slots, k)
  {
    var before, after, time := slots[..k], slots[k + 1..], slots[k].expiresAt;
    CountByIsZero(before, time);
    CountByIsZero(after, time - 1);
    if Ahead(slots, k) == 0 {
      forall i | 0 <= i < |slots|
        ensures time <= slots[i].expiresAt && (i < k ==> time < slots[i].expiresAt)
      {
        if i < k {
          assert before[i] == slots[i];
        } else if i > k {
          assert after[i - k - 1] == slots[i];
        }
      }
    }
  }

  lemma {:induction false} WithoutInTail<T>(s: seq<T>, m: nat, o: nat)
    requires m <= o < |s|
    ensures Without(s, o)[..m] == s[..m] && Without(s, o)[m..] == Without(s[m..], o - m)
  {
    assert s[m..][..o - m] == s[m..o];
    assert s[m..][o - m + 1..] == s[o + 1..];
  }

  lemma {:induction false} RemovalBefore(slots: seq<Slot>, k: nat, o: nat)
    requires o < k < |slots| && slots[o].expiresAt <= slots[k].expiresAt
    ensures Ahead(Without(slots, o), k - 1) == Ahead(slots, k) - 1
  {
    var rest := Without(slots, o);
    assert rest[..k - 1] == Without(slots[..k], o) && rest[k..] == slots[k + 1..];
    CountByOne(slots[..k], o, slots[k].expiresAt);
  }

  lemma {:induction false} RemovalBehind(slots: seq<Slot>, k: nat, o: nat)
    requires k < o < |slots| && slots[o].expiresAt < slots[k].expiresAt
    ensures Ahead(Without(slots, o), k) == Ahead(slots, k) - 1
  {
    WithoutInTail(slots, k, o);
    WithoutInTail(slots, k + 1, o);
    CountByOne(slots[k + 1..], o - k - 1, slots[k].expiresAt - 1);
  }

  lemma {:induction false} EvictionBringsNearer(slots: seq<Slot>, k: nat)
    requires k < |slots| && k != Oldest(slots)
    ensures var o := Oldest(slots);
            Ahead(Without(slots, o), if o < k then k - 1 else k) == Ahead(slots, k) - 1
  {
    hide Ahead, Without;
    var o := Oldest(slots);
    if o < k {
      RemovalBefore(slots, k, o);
    } else {
      RemovalBehind(slots, k, o);
    }
  }

  lemma {:induction false} CountByUpdate(slots: seq<Slot>, k: nat, slot: Slot, time: int)
    requires k < |slots|
    ensures CountBy(slots[k := slot], time) >= CountBy(slots, time) - 1
  {
    CountByOne(slots, k, time);
    CountByOne(slots[k := slot], k, time);
    assert Without(slots[k := slot], k) == Without(slots, k);
  }

  /** Replacing another entry brings this one at most one place nearer to eviction. */
  lemma {:induction false} UpdateBringsNearer(slots: seq<Slot>, k: nat, j: nat, slot: Slot)
    requires k < |slots| && j < |slots| && j != k
    ensures Ahead(slots[j := slot], k) >= Ahead(slots, k) - 1
  {
    var time, updated := slots[k].expiresAt, slots[j := slot];
    if j < k {
      assert updated[..k] == slots[..k][j := slot] && updated[k + 1..] == slots[k + 1..];
      CountByUpdate(slots[..k], j, slot, time);
    } else {
      assert updated[..k] == slots[..k] && updated[k + 1..] == slots[k + 1..][j - k - 1 := slot];
      CountByUpdate(slots[k + 1..], j - k - 1, slot, time - 1);
    }
  }

  /** A new entry that expires no earlier goes behind. */
  lemma {:induction false} AppendGoesBehind(slots: seq<Slot>, k: nat, slot: Slot)
    requires k < |slots|
    ensures Ahead(slots + [slot], k) >= Ahead(slots, k)
    ensures slot.expiresAt >= slots[k].expiresAt ==> Ahead(slots + [slot], k) == Ahead(slots, k)
  {
    var longer := slots + [slot];
    assert longer[..k] == slots[..k] && longer[k + 1..] == slots[k + 1..] + [slot];
    CountByAppend(slots[k + 1..], [slot], slots[k].expiresAt - 1);
  }

  /** How many stores this entry's buffer is sure to survive: the free places and the entries ahead of it. */
  function Slack(limits: Limits, slots: seq<Slot>, cacheKey: string): nat
    requires Has(slots, cacheKey) && Fits(limits, slots)
  {
    Cap(limits) - |slots| + Ahead(slots, IndexOf(slots, cacheKey))
  }

  lemma {:induction false} RoomKeepsSlack(limits: Limits, slots: seq<Slot>, k: nat)
    requires AreDistinct(slots) && Fits(limits, slots) && k < |slots|
    requires IsFull(limits, slots) ==> Oldest(slots) != k
    ensures var room := Room(limits, slots);
            && AreDistinct(room) && Fits(limits, room) && !IsFull(limits, room)
            && slots[k] in room
            && Has(room, slots[k].cacheKey) && room[IndexOf(room, slots[k].cacheKey)] == slots[k]
            && Slack(limits, room, slots[k].cacheKey) == Slack(limits, slots, slots[k].cacheKey)
  {
    hide Ahead;
    IndexOfIs(slots, k);
    if IsFull(limits, slots) {
      var o := Oldest(slots);
      EvictionBringsNearer(slots, k);
      WithoutKeepsDistinct(slots, o);
      IndexOfIs(Without(slots, o), if o < k then k - 1 else k);
    }
  }

  lemma {:induction false} SetKeepsSlack(limits: Limits, slots: seq<Slot>, k: nat, slot: Slot)
    requires AreDistinct(slots) && Fits(limits, slots) && !IsFull(limits, slots)
    requires k < |slots| && slot.cacheKey != slots[k].cacheKey
    ensures var set' := SetSlot(slots, slot);
            && AreDistinct(set') && Fits(limits, set')
            && Has(set', slots[k].cacheKey) && set'[IndexOf(set', slots[k].cacheKey)] == slots[k]
            && Slack(limits, set', slots[k].cacheKey) >= Slack(limits, slots, slots[k].cacheKey) - 1
            && (!Has(slots, slot.cacheKey) && slot.expiresAt >= slots[k].expiresAt ==>
                  Slack(limits, set', slots[k].cacheKey) == Slack(limits, slots, slots[k].cacheKey) - 1)
  {
    hide Ahead, AreDistinct;
    SetKeepsDistinct(slots, slot);
    IndexOfIs(slots, k);
    IndexOfIs(SetSlot(slots, slot), k);
    var j := IndexOf(slots, slot.cacheKey);
    if j < |slots| {
      UpdateBringsNearer(slots, k, j, slot);
    } else {
      AppendGoesBehind(slots, k, slot);
    }
  }

  lemma {:induction false} RoomHasNoMore(limits: Limits, slots: seq<Slot>, cacheKey: string)
    requires !Has(slots, cacheKey)
    ensures !Has(Room(limits, slots), cacheKey)
  {
    if IsFull(limits, slots) {
      var room, o := Room(limits, slots), Oldest(slots);
      forall i | 0 <= i < |room| ensures room[i].cacheKey != cacheKey {
        assert room[i] == slots[if i < o then i else i + 1];
      }
    }
  }

  /** A store drops a buffer exactly when it has no slack left, even if it stores the same key again. */
  lemma {:induction false} DroppedWithoutSlack(limits: Limits, slots: seq<Slot>, k: nat, op: Op)
    requires AreDistinct(slots) && Fits(limits, slots) && k < |slots| && op.Put?
    ensures Has(slots, slots[k].cacheKey)
    ensures IsFull(limits, slots) && Oldest(slots) == k <==> Slack(limits, slots, slots[k].cacheKey) == 0
    ensures FateStep(limits, slots, slots[k].cacheKey, op) ==
            if Slack(limits, slots, slots[k].cacheKey) == 0 then Zeroed
            else if SlotOf(limits, op).cacheKey == slots[k].cacheKey then Replaced
            else Cached
  {
    hide Ahead;
    IndexOfIs(slots, k);
    IndexOfIs(slots, Oldest(slots));
    OldestHasNoneAhead(slots, k);
    if IsOldest(slots, k) {
      OldestIs(slots, k);
    }
  }

  /** A store takes at most one from the slack of another entry, and one exactly if it adds a key behind it. */
  lemma {:induction false} StoreTakesOne(limits: Limits, slots: seq<Slot>, k: nat, op: Op)
    requires AreDistinct(slots) && Fits(limits, slots) && k < |slots|
    requires op.Put? && SlotOf(limits, op).cacheKey != slots[k].cacheKey
    requires Has(slots, slots[k].cacheKey) && Slack(limits, slots, slots[k].cacheKey) > 0
    ensures var slot, next := slots[k], Step(limits, slots, op);
            && AreDistinct(next) && Fits(limits, next)
            && Has(next, slot.cacheKey) && next[IndexOf(next, slot.cacheKey)] == slot
            && Slack(limits, next, slot.cacheKey) >= Slack(limits, slots, slot.cacheKey) - 1
            && (!Has(slots, SlotOf(limits, op).cacheKey) && SlotOf(limits, op).expiresAt >= slot.expiresAt ==>
                  Slack(limits, next, slot.cacheKey) == Slack(limits, slots, slot.cacheKey) - 1)
  {
    DroppedWithoutSlack(limits, slots, k, op);
    hide Slack, AreDistinct, SetSlot, FateStep, Has;
    var room, slot := Room(limits, slots), SlotOf(limits, op);
    RoomKeepsSlack(limits, slots, k);
    if !Has(slots, slot.cacheKey) {
      RoomHasNoMore(limits, slots, slot.cacheKey);
    }
    HasIs(room, slots[k].cacheKey);
    SetKeepsSlack(limits, room, IndexOf(room, slots[k].cacheKey), slot);
  }

  lemma {:induction false} HasIs(slots: seq<Slot>, cacheKey: string)
    ensures Has(slots, cacheKey) <==> IndexOf(slots, cacheKey) < |slots|
  {
  }

  // ---- The two theorems ----

  /** Without a `clear`, a buffer outlives as many stores as it has slack, whatever they store. */
  lemma {:induction false} SurvivesWithinSlack(limits: Limits, slots: seq<Slot>, k: nat, ops: seq<Op>)
    requires AreDistinct(slots) && Fits(limits, slots) && k < |slots| && Has(slots, slots[k].cacheKey)
    requires Clear !in ops && |ops| <= Slack(limits, slots, slots[k].cacheKey)
    ensures var slot, fate, after := slots[k], FateOf(limits, slots, slots[k].cacheKey, ops), After(limits, slots, ops);
            && fate != Zeroed
            && (fate == Cached ==>
                  && AreDistinct(after) && Fits(limits, after)
                  && Has(after, slot.cacheKey) && after[IndexOf(after, slot.cacheKey)] == slot
                  && Slack(limits, after, slot.cacheKey) >= Slack(limits, slots, slot.cacheKey) - |ops|)
  {
    hide Slack, AreDistinct, Fits, Step;
    if ops == [] {
      IndexOfIs(slots, k);
    } else {
      var before, op, slot := ops[..|ops| - 1], ops[|ops| - 1], slots[k];
      SurvivesWithinSlack(limits, slots, k, before);
      if FateOf(limits, slots, slot.cacheKey, before) == Cached {
        var mid := After(limits, slots, before);
        DroppedWithoutSlack(limits, mid, IndexOf(mid, slot.cacheKey), op);
        if SlotOf(limits, op).cacheKey != slot.cacheKey {
          StoreTakesOne(limits, mid, IndexOf(mid, slot.cacheKey), op);
        }
      }
    }
  }

  /** Stores of new keys, each once, that expire no earlier than this entry. */
  predicate AreBehind(limits: Limits, slots: seq<Slot>, slot: Slot, ops: seq<Op>) {
    && (forall i :: 0 <= i < |ops| ==>
          && ops[i].Put? && !Has(slots, SlotOf(limits, ops[i]).cacheKey)
          && SlotOf(limits, ops[i]).expiresAt >= slot.expiresAt)
    && (forall i, j :: 0 <= i < j < |ops| ==>
          SlotOf(limits, ops[i]).cacheKey != SlotOf(limits, ops[j]).cacheKey)
  }

  lemma {:induction false} SetHasNoMore(slots: seq<Slot>, slot: Slot, cacheKey: string)
    requires !Has(slots, cacheKey) && slot.cacheKey != cacheKey
    ensures !Has(SetSlot(slots, slot), cacheKey)
  {
  }

  lemma {:induction false} AfterHasNoMore(limits: Limits, slots: seq<Slot>, ops: seq<Op>, cacheKey: string)
    requires !Has(slots, cacheKey)
    requires forall i :: 0 <= i < |ops| ==> ops[i].Put? && SlotOf(limits, ops[i]).cacheKey != cacheKey
    ensures !Has(After(limits, slots, ops), cacheKey)
  {
    hide SetSlot, Room, Has;
    if ops != [] {
      var before, op := ops[..|ops| - 1], ops[|ops| - 1];
      AfterHasNoMore(limits, slots, before, cacheKey);
      RoomHasNoMore(limits, After(limits, slots, before), cacheKey);
      SetHasNoMore(Room(limits, After(limits, slots, before)), SlotOf(limits, op), cacheKey);
    }
  }

  /** Stores that queue up behind a buffer take its slack one by one: it is dropped by the first one too many. */
  lemma {:induction false} SurvivesExactly(limits: Limits, slots: seq<Slot>, k: nat, ops: seq<Op>)
    requires AreDistinct(slots) && Fits(limits, slots) && k < |slots| && Has(slots, slots[k].cacheKey)
    requires AreBehind(limits, slots, slots[k], ops)
    ensures var slot, slack := slots[k], Slack(limits, slots, slots[k].cacheKey);
            var fate, after := FateOf(limits, slots, slot.cacheKey, ops), After(limits, slots, ops);
            && fate == (if |ops| <= slack then Cached else Zeroed)
            && (fate == Cached ==>
                  && AreDistinct(after) && Fits(limits, after)
                  && Has(after, slot.cacheKey) && after[IndexOf(after, slot.cacheKey)] == slot
                  && Slack(limits, after, slot.cacheKey) == slack - |ops|)
  {
    hide Slack, AreDistinct, Fits, Step;
    if ops == [] {
      IndexOfIs(slots, k);
    } else {
      var before, op, slot := ops[..|ops| - 1], ops[|ops| - 1], slots[k];
      SurvivesExactly(limits, slots, k, before);
      if FateOf(limits, slots, slot.cacheKey, before) == Cached {
        var mid := After(limits, slots, before);
        AfterHasNoMore(limits, slots, before, SlotOf(limits, op).cacheKey);
        DroppedWithoutSlack(limits, mid, IndexOf(mid, slot.cacheKey), op);
        if Slack(limits, mid, slot.cacheKey) > 0 {
          StoreTakesOne(limits, mid, IndexOf(mid, slot.cacheKey), op);
        }
      }
    }
  }

  /**
   * The slack of an entry is at least the free places and at most all places but its own: the
   * oldest entry has the former, the last to expire the latter.
   */
  lemma {:induction false} SlackIsBetween(limits: Limits, slots: seq<Slot>, k: nat)
    requires AreDistinct(slots) && Fits(limits, slots) && k < |slots| && Has(slots, slots[k].cacheKey)
    ensures var slack := Slack(limits, slots, slots[k].cacheKey);
            && Cap(limits) - |slots| <= slack <= Cap(limits) - 1
            && (IsOldest(slots, k) ==> slack == Cap(limits) - |slots|)
            && ((forall i :: 0 <= i < |slots| && i != k ==> slots[i].expiresAt < slots[k].expiresAt) ==>
                  slack == Cap(limits) - 1)
  {
    IndexOfIs(slots, k);
    OldestHasNoneAhead(slots, k);
    CountByIsAtMost(slots[..k], slots[k].expiresAt);
    CountByIsAtMost(slots[k + 1..], slots[k].expiresAt - 1);
    if forall i :: 0 <= i < |slots| && i != k ==> slots[i].expiresAt < slots[k].expiresAt {
      CountByIsAll(slots[..k], slots[k].expiresAt);
      CountByIsAll(slots[k + 1..], slots[k].expiresAt - 1);
    }
  }

  lemma {:induction false} CountByIsAtMost(slots: seq<Slot>, time: int)
    ensures CountBy(slots, time) <= |slots|
  {
    if slots != [] {
      CountByIsAtMost(slots[1..], time);
    }
  }

  lemma {:induction false} OldestIsDropped(limits: Limits, slots: seq<Slot>, cacheKey: string, op: Op)
    requires IsFull(limits, slots) && IndexOf(slots, cacheKey) == Oldest(slots) && op.Put?
    ensures FateOf(limits, slots, cacheKey, [op]) == Zeroed
  {
    assert [op][..0] == [];
    assert FateOf(limits, slots, cacheKey, []) == Cached;
  }

  /** One more change after the others. */
  lemma {:induction false} OneMore(limits: Limits, slots: seq<Slot>, others: seq<Op>, op: Op)
    ensures After(limits, slots, others + [op]) == Step(limits, After(limits, slots, others), op)
    ensures forall cacheKey ::
              var fate := FateOf(limits, slots, cacheKey, others);
              FateOf(limits, slots, cacheKey, others + [op]) ==
              if fate != Cached then fate else FateStep(limits, After(limits, slots, others), cacheKey, op)
  {
    assert (others + [op])[..|others|] == others;
  }

  lemma {:induction false} AtOnce(limits: Limits, slots: seq<Slot>)
    ensures After(limits, slots, []) == slots
    ensures forall cacheKey :: FateOf(limits, slots, cacheKey, []) == Cached
  {
  }

  // ---- A key that was handed out ----

  /** Whether the key a look-up hands out is overwritten by what others do before it is used. */
  predicate LosesKey(
      limits: Limits, slots: seq<Slot>, wrapped: seq<byte>, version: nat, now: int, others: seq<Op>, gap: seq<Op>)
  {
    var cached := After(limits, slots, Steps(slots, wrapped, version, now, true, others));
    FateOf(limits, cached, CacheKey(version, wrapped), gap) == Zeroed
  }

  lemma {:induction false} SetHas(slots: seq<Slot>, slot: Slot)
    ensures Has(SetSlot(slots, slot), slot.cacheKey)
  {
    var after, k := SetSlot(slots, slot), IndexOf(slots, slot.cacheKey);
    assert after[k] == slot;
    assert IndexOf(after, slot.cacheKey) <= k;
  }

  lemma {:induction false} HandedOutKeyIsCached(
      limits: Limits, slots: seq<Slot>, wrapped: seq<byte>, version: nat, now: int, others: seq<Op>)
    requires AreDistinct(slots) && Fits(limits, slots)
    ensures var cached := After(limits, slots, Steps(slots, wrapped, version, now, true, others));
            AreDistinct(cached) && Fits(limits, cached) && Has(cached, CacheKey(version, wrapped))
  {
    hide AreDistinct, Fits, FateOf, After, CacheKey, Room, SetSlot, FateStep;
    AfterKeepsSlots(limits, slots, Steps(slots, wrapped, version, now, true, others));
    AtOnce(limits, slots);
    OneMore(limits, slots, others, Put(wrapped, version, now));
    SetHas(Room(limits, After(limits, slots, others)), SlotOf(limits, Put(wrapped, version, now)));
  }

  /** The key is in the cache when it is handed out, and lost only if more is stored meanwhile than its slack allows. */
  lemma {:induction false} HandedOutKeyIsSafe(
      limits: Limits, slots: seq<Slot>, wrapped: seq<byte>, version: nat, now: int, others: seq<Op>, gap: seq<Op>)
    requires AreDistinct(slots) && Fits(limits, slots)
    ensures var cacheKey, ops := CacheKey(version, wrapped), Steps(slots, wrapped, version, now, true, others);
            var cached := After(limits, slots, ops);
            && Fits(limits, cached) && Has(cached, cacheKey)
            && var slot, slack := cached[IndexOf(cached, cacheKey)], Slack(limits, cached, cacheKey);
               && (Clear !in gap && |gap| <= slack ==> !LosesKey(limits, slots, wrapped, version, now, others, gap))
               && (AreBehind(limits, cached, slot, gap) ==>
                     (LosesKey(limits, slots, wrapped, version, now, others, gap) <==> |gap| > slack))
  {
    hide AreDistinct, Slack, AreBehind, Fits, FateOf, After, Steps, CacheKey;
    var cacheKey, ops := CacheKey(version, wrapped), Steps(slots, wrapped, version, now, true, others);
    var cached := After(limits, slots, ops);
    HandedOutKeyIsCached(limits, slots, wrapped, version, now, others);
    var k := IndexOf(cached, cacheKey);
    if Clear !in gap && |gap| <= Slack(limits, cached, cacheKey) {
      SurvivesWithinSlack(limits, cached, k, gap);
    }
    if AreBehind(limits, cached, cached[k], gap) {
      SurvivesExactly(limits, cached, k, gap);
    }
  }
}
