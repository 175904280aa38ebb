/**
 * The fixed-window limiter over Redis. A request reads the clock (`now`) and is counted at
 * the same moment or later (`at`); times are milliseconds of one clock that never goes back.
 */
module RateLimit {
  import opened Basics
  import opened Decimals
  import opened Strings
  import opened Text

  const WINDOW_SECONDS := 60
  const WINDOW := 60_000

  datatype Scope = Global | Auth | Webhook

  function ScopeName(s: Scope): string {
    match s
    case Global => "global"
    case Auth => "auth"
    case Webhook => "webhook"
  }

  function WindowOf(now: nat): nat {
    now / WINDOW
  }

  function EndOf(window: nat): nat {
    (window + 1) * WINDOW
  }

  // ---- Keys ----

  function Subject(scope: Scope, identifier: string): string {
    if scope == Webhook then "all" else identifier
  }

  function KeyOf(scope: Scope, subject: string, window: nat): string {
    "rl:" + ScopeName(scope) + ":" + subject + ":" + Decimal(window)
  }

  lemma {:induction false} ScopeNames(a: Scope, b: Scope)
    ensures ':' !in ScopeName(a)
    ensures ScopeName(a) == ScopeName(b) ==> a == b
  {
  }

  lemma {:induction false} NoColonInDecimal(n: nat)
    ensures ':' !in Decimal(n)
  {
  }

  /** Distinct (scope, subject, window) never share a key, even for subjects with colons. */
  lemma {:induction false} KeysAreDistinct(a: Scope, x: string, v: nat, b: Scope, y: string, w: nat)
    ensures KeyOf(a, x, v) == KeyOf(b, y, w) <==> a == b && x == y && v == w
  {
    hide ScopeName;
    if KeyOf(a, x, v) == KeyOf(b, y, w) {
      ScopeNames(a, b);
      ScopeNames(b, a);
      hide Decimal;
      NoColonInDecimal(v);
      NoColonInDecimal(w);
      var s, t := ScopeName(a) + ":" + x, ScopeName(b) + ":" + y;
      assert KeyOf(a, x, v)[3..] == s + [':'] + Decimal(v);
      assert KeyOf(b, y, w)[3..] == t + [':'] + Decimal(w);
      SplitsAtLast(s, t, Decimal(v), Decimal(w), ':');
      SplitsAtFirst(ScopeName(a), ScopeName(b), x, y, ':');
      DecimalIsInjective(v, w);
    }
  }

  function ResetSeconds(now: nat): nat {
    WINDOW_SECONDS - now / 1_000 % WINDOW_SECONDS
  }

  /** `Retry-After` is the first whole second of the next window. */
  lemma {:induction false} ResetIsTheEndOfTheWindow(now: nat)
    ensures 1 <= ResetSeconds(now) <= WINDOW_SECONDS
    ensures (now / 1_000 + ResetSeconds(now)) * 1_000 == EndOf(WindowOf(now))
    ensures now + ResetSeconds(now) * 1_000 >= EndOf(WindowOf(now))
  {
    var s := now / 1_000;
    assert now / WINDOW == s / 60;
  }

  // ---- Redis ----

  /** A counter and when it is gone. */
  datatype Counter = Counter(count: nat, expiresAt: nat)

  type Store = map<string, Counter>

  function Live(store: Store, key: string, at: nat): nat {
    if key in store && at < store[key].expiresAt then store[key].count else 0
  }

  /** `MULTI`, `INCR`, `EXPIRE`, `EXEC`: one step. */
  function Incremented(store: Store, key: string, at: nat): Store {
    store[key := Counter(Live(store, key, at) + 1, at + WINDOW_SECONDS * 1_000)]
  }

  /** What the client sees: the replies, or a failure that may have come before or after the count. */
  datatype Reply = Answered | Failed(counted: bool)

  // ---- The limiter ----

  /** The configured limits; `None` is not a finite number. */
  datatype Limits = Limits(global: Option<int>, auth: Option<int>, webhook: Option<int>)

  function LimitOf(limits: Limits, scope: Scope): Option<int> {
    match scope
    case Global => limits.global
    case Auth => limits.auth
    case Webhook => limits.webhook
  }

  datatype Decision = Decision(allowed: bool, count: nat, limit: int, resetSeconds: nat)

  datatype Request = Request(scope: Scope, identifier: string, now: nat, at: nat, reply: Reply)

  function RequestKey(r: Request): string {
    KeyOf(r.scope, Subject(r.scope, r.identifier), WindowOf(r.now))
  }

  predicate IsEnabled(limits: Limits, scope: Scope)
  {
    LimitOf(limits, scope).Some? && LimitOf(limits, scope).value > 0
  }

  function Decide(limits: Limits, store: Store, r: Request): Decision
  {
    if !IsEnabled(limits, r.scope) then Decision(true, 0, 0, ResetSeconds(r.now))
    else
      var limit, count := LimitOf(limits, r.scope).value, Live(store, RequestKey(r), r.at) + 1;
      if r.reply.Answered? then Decision(count <= limit, count, limit, ResetSeconds(r.now))
      else Decision(true, 0, limit, ResetSeconds(r.now))
  }

  function Next(limits: Limits, store: Store, r: Request): Store
  {
    if !IsEnabled(limits, r.scope) || (r.reply.Failed? && !r.reply.counted) then store
    else Incremented(store, RequestKey(r), r.at)
  }

  function Run(limits: Limits, requests: seq<Request>): Store
    decreases |requests|
  {
    if requests == [] then map[]
    else Next(limits, Run(limits, requests[..|requests| - 1]), requests[|requests| - 1])
  }

  class RateLimiter {
    var store: Store
    const limits: Limits

    constructor (limits: Limits)
      ensures store == map[] && this.limits == limits
    {
      store := map[];
      this.limits := limits;
    }

    method IncrAndExpire(key: string, at: nat) returns (count: nat)
      modifies `store
      ensures store == Incremented(old(store), key, at) && count == Live(old(store), key, at) + 1
    {
      count := (if key in store && at < store[key].expiresAt then store[key].count else 0) + 1;
      store := store[key := Counter(count, at + WINDOW_SECONDS * 1_000)];
    }

    method Consume(r: Request) returns (decision: Decision)
      modifies `store
      ensures decision == Decide(limits, old(store), r) && store == Next(limits, old(store), r)
    {
      hide KeyOf;
      var limit, resetSeconds := LimitOf(limits, r.scope), ResetSeconds(r.now);
      if limit.None? || limit.value <= 0 {
        return Decision(true, 0, 0, resetSeconds);
      }
      var key := KeyOf(r.scope, Subject(r.scope, r.identifier), WindowOf(r.now));
      if r.reply.Answered? {
        var count := IncrAndExpire(key, r.at);
        return Decision(count <= limit.value, count, limit.value, resetSeconds);
      }
      if r.reply.counted {
        var count := IncrAndExpire(key, r.at);
      }
      decision := Decision(true, 0, limit.value, resetSeconds);
    }
  }

  // ---- Windows ----

  /** Redis answers in the order of one clock, never before the request read it. */
  predicate IsOrdered(requests: seq<Request>) {
    && (forall i :: 0 <= i < |requests| ==> requests[i].now <= requests[i].at)
    && (forall i, j :: 0 <= i < j < |requests| ==> requests[i].at <= requests[j].at)
  }

  predicate AllAnswered(requests: seq<Request>) {
    forall i :: 0 <= i < |requests| ==> requests[i].reply.Answered?
  }

  /** Which requests of a bucket share a window. */
  datatype Bucket = Bucket(scope: Scope, subject: string, window: nat)

  predicate CountsIn(r: Request, b: Bucket) {
    r.scope == b.scope && Subject(r.scope, r.identifier) == b.subject && WindowOf(r.now) == b.window
  }

  /** Counted before its window was over. */
  predicate IsTimely(r: Request) {
    r.at < EndOf(WindowOf(r.now))
  }

  function Counted(requests: seq<Request>, b: Bucket): nat
    decreases |requests|
  {
    if requests == [] then 0
    else Counted(requests[..|requests| - 1], b) + if CountsIn(requests[|requests| - 1], b) then 1 else 0
  }

  function BucketKey(b: Bucket): string {
    KeyOf(b.scope, b.subject, b.window)
  }

  lemma {:induction false} KeyMatches(r: Request, b: Bucket)
    ensures RequestKey(r) == BucketKey(b) <==> CountsIn(r, b)
  {
    KeysAreDistinct(r.scope, Subject(r.scope, r.identifier), WindowOf(r.now), b.scope, b.subject, b.window);
  }

  /** Refreshing the expiry never lets a counter go inside its own window. */
  lemma {:induction false} ExpiryOutlivesTheWindow(now: nat, at: nat)
    requires now <= at
    ensures at + WINDOW_SECONDS * 1_000 >= EndOf(WindowOf(now))
  {
  }

  /** Until its window is over, the store holds a bucket's count. */
  lemma {:induction false} StoreHoldsTheCount(limits: Limits, requests: seq<Request>, b: Bucket)
    requires IsEnabled(limits, b.scope)
    requires IsOrdered(requests) && AllAnswered(requests)
    requires requests != [] ==> requests[|requests| - 1].at < EndOf(b.window)
    ensures var store, n := Run(limits, requests), Counted(requests, b);
            if n == 0 then BucketKey(b) !in store
            else
              && BucketKey(b) in store && store[BucketKey(b)].count == n
              && store[BucketKey(b)].expiresAt >= EndOf(b.window)
    decreases |requests|
  {
    hide BucketKey, RequestKey, CountsIn;
    if requests != [] {
      var before, r := requests[..|requests| - 1], requests[|requests| - 1];
      StoreHoldsTheCount(limits, before, b);
      KeyMatches(r, b);
      if CountsIn(r, b) {
        CountsInMeans(r, b);
        ExpiryOutlivesTheWindow(r.now, r.at);
      }
    }
  }

  lemma {:induction false} CountsInMeans(r: Request, b: Bucket)
    requires CountsIn(r, b)
    ensures r.scope == b.scope && WindowOf(r.now) == b.window
  {
  }

  function BucketOf(r: Request): Bucket {
    Bucket(r.scope, Subject(r.scope, r.identifier), WindowOf(r.now))
  }

  // ---- Who shares a count, and who is refused ----

  /**
   * Two requests share a count exactly if they are of one scope and one minute of the clock and,
   * except for webhooks, come from one client.
   */
  lemma {:induction false} CountIsSharedExactly(r: Request, q: Request)
    ensures RequestKey(r) == RequestKey(q)
       <==> && r.scope == q.scope && r.now / 60_000 == q.now / 60_000
            && (r.scope.Webhook? || r.identifier == q.identifier)
    ensures RequestKey(r) == RequestKey(q) <==> CountsIn(q, BucketOf(r))
  {
    KeysAreDistinct(r.scope, Subject(r.scope, r.identifier), WindowOf(r.now),
                    q.scope, Subject(q.scope, q.identifier), WindowOf(q.now));
  }

  /**
   * Whatever the store holds, a request is refused exactly if its scope has a positive limit, Redis
   * answered, and the count it was told is above that limit. A failure is never counted against it.
   */
  lemma {:induction false} RefusedExactly(limits: Limits, store: Store, r: Request)
    ensures var limit := match r.scope case Global => limits.global case Auth => limits.auth
                                       case Webhook => limits.webhook;
            var d := Decide(limits, store, r);
            && (!d.allowed <==> limit.Some? && limit.value > 0 && r.reply.Answered? && d.count > limit.value)
            && (d.count > 0 <==> limit.Some? && limit.value > 0 && r.reply.Answered?)
            && d.resetSeconds == ResetSeconds(r.now)
  {
    hide KeyOf, ResetSeconds;
  }

  /** A limit of nothing leaves the store alone; with one, a reply or its failure counts at most this request. */
  lemma {:induction false} OnlyItsKeyCounts(limits: Limits, store: Store, r: Request, key: string)
    ensures var after := Next(limits, store, r);
            && (!IsEnabled(limits, r.scope) ==> after == store)
            && (key != RequestKey(r) ==> Live(after, key, r.at) == Live(store, key, r.at))
            && (IsEnabled(limits, r.scope) && r.reply.Answered? ==>
                  Live(after, RequestKey(r), r.at) == Live(store, RequestKey(r), r.at) + 1)
  {
    hide KeyOf;
  }

  // ---- What the counter counts ----

  /** When a request of the bucket was last counted. */
  function LastAt(requests: seq<Request>, b: Bucket): Option<nat>
    decreases |requests|
  {
    if requests == [] then None
    else if CountsIn(requests[|requests| - 1], b) then Some(requests[|requests| - 1].at)
    else LastAt(requests[..|requests| - 1], b)
  }

  /** The counter is still there a minute after the last request it counted, and not longer. */
  predicate IsAlive(requests: seq<Request>, b: Bucket, at: nat) {
    LastAt(requests, b).Some? && at < LastAt(requests, b).value + WINDOW
  }

  /** How many of the bucket's requests were counted since a minute last went by without one. */
  function Streak(requests: seq<Request>, b: Bucket): nat
    decreases |requests|
  {
    if requests == [] then 0
    else
      var before, r := requests[..|requests| - 1], requests[|requests| - 1];
      if !CountsIn(r, b) then Streak(before, b)
      else if IsAlive(before, b, r.at) then Streak(before, b) + 1
      else 1
  }

  lemma {:induction false} StoreHoldsTheStreak(limits: Limits, requests: seq<Request>, b: Bucket)
    requires IsEnabled(limits, b.scope) && AllAnswered(requests)
    ensures var store, last := Run(limits, requests), LastAt(requests, b);
            if last.None? then BucketKey(b) !in store
            else BucketKey(b) in store && store[BucketKey(b)] == Counter(Streak(requests, b), last.value + WINDOW)
    decreases |requests|
  {
    hide BucketKey, RequestKey, CountsIn;
    if requests != [] {
      var before, r := requests[..|requests| - 1], requests[|requests| - 1];
      StoreHoldsTheStreak(limits, before, b);
      KeyMatches(r, b);
      if CountsIn(r, b) {
        CountsInMeans(r, b);
      }
    }
  }

  /** Every request, however late, is told the streak it continues, and admitted exactly if that is below the limit. */
  lemma {:induction false} CountIsTheStreak(limits: Limits, before: seq<Request>, r: Request)
    requires IsEnabled(limits, r.scope) && AllAnswered(before) && r.reply.Answered?
    ensures var d, n := Decide(limits, Run(limits, before), r),
                        if IsAlive(before, BucketOf(r), r.at) then Streak(before, BucketOf(r)) else 0;
            d.count == n + 1 && (d.allowed <==> n < LimitOf(limits, r.scope).value)
  {
    hide KeyOf, Run, Streak, LastAt;
    StoreHoldsTheStreak(limits, before, BucketOf(r));
  }

  /** No minute goes by between two requests of the bucket. */
  predicate IsUnbroken(requests: seq<Request>, b: Bucket)
    decreases |requests|
  {
    requests != [] ==>
      var before, r := requests[..|requests| - 1], requests[|requests| - 1];
      IsUnbroken(before, b) && (CountsIn(r, b) && LastAt(before, b).Some? ==> IsAlive(before, b, r.at))
  }

  /** The streak is the whole bucket exactly as long as none goes by. */
  lemma {:induction false} StreakIsAllExactly(requests: seq<Request>, b: Bucket)
    ensures Streak(requests, b) <= Counted(requests, b)
    ensures Streak(requests, b) == Counted(requests, b) <==> IsUnbroken(requests, b)
    ensures LastAt(requests, b).Some? <==> Counted(requests, b) > 0
    decreases |requests|
  {
    if requests != [] {
      StreakIsAllExactly(requests[..|requests| - 1], b);
    }
  }

  /** So a request is told how many came before it exactly when no minute went by without one. */
  lemma {:induction false} FirstOnesAreAdmitted(limits: Limits, before: seq<Request>, r: Request)
    requires IsEnabled(limits, r.scope) && AllAnswered(before) && r.reply.Answered?
    ensures var d, n := Decide(limits, Run(limits, before), r), Counted(before, BucketOf(r));
            && (d.count == n + 1 <==> IsUnbroken(before + [r], BucketOf(r)))
            && (IsUnbroken(before + [r], BucketOf(r)) ==> (d.allowed <==> n < LimitOf(limits, r.scope).value))
  {
    hide KeyOf, Run, Streak, Counted, Decide, IsEnabled;
    assert (before + [r])[..|before|] == before;
    CountIsTheStreak(limits, before, r);
    StreakIsAllExactly(before, BucketOf(r));
  }

  /** Requests counted in their window leave no minute between them. */
  lemma {:induction false} TimelyIsUnbroken(requests: seq<Request>, b: Bucket)
    requires IsOrdered(requests) && forall i :: 0 <= i < |requests| ==> IsTimely(requests[i])
    ensures IsUnbroken(requests, b)
    ensures LastAt(requests, b).Some? ==> LastAt(requests, b).value >= b.window * WINDOW
    decreases |requests|
  {
    if requests != [] {
      TimelyIsUnbroken(requests[..|requests| - 1], b);
    }
  }

  function Admitted(limits: Limits, requests: seq<Request>, b: Bucket): nat
    decreases |requests|
  {
    if requests == [] then 0
    else
      var before, r := requests[..|requests| - 1], requests[|requests| - 1];
      Admitted(limits, before, b) + if CountsIn(r, b) && Decide(limits, Run(limits, before), r).allowed then 1 else 0
  }

  /** In each window the first N are admitted and no others. */
  lemma {:induction false} WindowAdmitsExactly(limits: Limits, requests: seq<Request>, b: Bucket)
    requires IsEnabled(limits, b.scope) && AllAnswered(requests) && IsUnbroken(requests, b)
    ensures var n, limit := Counted(requests, b), LimitOf(limits, b.scope).value;
            Admitted(limits, requests, b) == if n < limit then n else limit
    decreases |requests|
  {
    hide Decide, Run, EndOf, WindowOf;
    if requests != [] {
      var before, r := requests[..|requests| - 1], requests[|requests| - 1];
      assert requests == before + [r];
      WindowAdmitsExactly(limits, before, b);
      if CountsIn(r, b) {
        assert BucketOf(r) == b;
        FirstOnesAreAdmitted(limits, before, r);
      }
    }
  }

  /** A request counted a minute after the last one starts the count again. */
  lemma {:induction false} LateRequestStartsAgain(limits: Limits, before: seq<Request>, r: Request)
    requires IsEnabled(limits, r.scope) && AllAnswered(before) && r.reply.Answered?
    requires !IsAlive(before, BucketOf(r), r.at)
    ensures Decide(limits, Run(limits, before), r).count == 1 && Decide(limits, Run(limits, before), r).allowed
  {
    hide KeyOf, Run, Streak, LastAt, Decide;
    CountIsTheStreak(limits, before, r);
  }

  // ---- Any sixty seconds ----

  predicate IsWithin(r: Request, start: nat) {
    start <= r.at < start + WINDOW
  }

  /** The bucket's requests counted in `[start, start + 60 s)`. */
  function CountedIn(requests: seq<Request>, b: Bucket, start: nat): nat
    decreases |requests|
  {
    if requests == [] then 0
    else
      var before, r := requests[..|requests| - 1], requests[|requests| - 1];
      CountedIn(before, b, start) + if CountsIn(r, b) && IsWithin(r, start) then 1 else 0
  }

  function AdmittedAt(limits: Limits, requests: seq<Request>, b: Bucket, start: nat): nat
    decreases |requests|
  {
    if requests == [] then 0
    else
      var before, r := requests[..|requests| - 1], requests[|requests| - 1];
      AdmittedAt(limits, before, b, start)
      + if CountsIn(r, b) && IsWithin(r, start) && Decide(limits, Run(limits, before), r).allowed then 1 else 0
  }

  /** Within sixty seconds a streak is not broken once it has begun. */
  lemma {:induction false} StreakGoesOn(requests: seq<Request>, b: Bucket, start: nat)
    requires IsOrdered(requests)
    requires requests != [] ==> requests[|requests| - 1].at < start + WINDOW
    ensures Streak(requests, b) >= CountedIn(requests, b, start)
    ensures CountedIn(requests, b, start) > 0 ==> LastAt(requests, b).Some? && LastAt(requests, b).value >= start
    ensures LastAt(requests, b).Some? ==> requests != [] && LastAt(requests, b).value <= requests[|requests| - 1].at
    decreases |requests|
  {
    hide CountsIn;
    if requests != [] {
      var before := requests[..|requests| - 1];
      StreakGoesOn(before, b, start);
      assert before != [] ==> before[|before| - 1] == requests[|before| - 1];
    }
  }

  /** No window's key admits more than N in sixty seconds, late requests included. */
  lemma {:induction false} EachKeyAdmitsTheLimit(limits: Limits, requests: seq<Request>, b: Bucket, start: nat)
    requires IsEnabled(limits, b.scope) && IsOrdered(requests) && AllAnswered(requests)
    ensures AdmittedAt(limits, requests, b, start) <= CountedIn(requests, b, start)
    ensures AdmittedAt(limits, requests, b, start) <= LimitOf(limits, b.scope).value
    decreases |requests|
  {
    hide Decide, Run, EndOf, WindowOf, Streak, LastAt, IsOrdered, AllAnswered;
    if requests != [] {
      var before, r := requests[..|requests| - 1], requests[|requests| - 1];
      assert requests == before + [r];
      PrefixIsOrdered(before, r);
      EachKeyAdmitsTheLimit(limits, before, b, start);
      if CountsIn(r, b) && IsWithin(r, start) {
        assert BucketOf(r) == b;
        StreakGoesOn(before, b, start);
        CountIsTheStreak(limits, before, r);
      }
    }
  }

  lemma {:induction false} PrefixIsOrdered(before: seq<Request>, r: Request)
    requires IsOrdered(before + [r]) && AllAnswered(before + [r])
    ensures IsOrdered(before) && AllAnswered(before) && r.reply.Answered? && r.now <= r.at
    ensures before != [] ==> before[|before| - 1].at <= r.at
  {
    var all := before + [r];
    assert all[|before|] == r;
    forall i | 0 <= i < |before| ensures before[i].now <= before[i].at && before[i].reply.Answered? {
      assert all[i] == before[i];
    }
    forall i, j | 0 <= i < j < |before| ensures before[i].at <= before[j].at {
      assert all[i] == before[i] && all[j] == before[j];
    }
    if before != [] {
      assert all[|before| - 1].at <= all[|before|].at;
    }
  }

  predicate IsOf(r: Request, scope: Scope, subject: string) {
    r.scope == scope && Subject(r.scope, r.identifier) == subject
  }

  /** Admitted for one subject, whichever window they belong to, and counted in `[start, start + 60 s)`. */
  function AdmittedIn(limits: Limits, requests: seq<Request>, scope: Scope, subject: string, start: nat): nat
    decreases |requests|
  {
    if requests == [] then 0
    else
      var before, r := requests[..|requests| - 1], requests[|requests| - 1];
      AdmittedIn(limits, before, scope, subject, start)
      + if IsOf(r, scope, subject) && IsWithin(r, start) && Decide(limits, Run(limits, before), r).allowed then 1 else 0
  }

  /** The same over `n` windows from `first` on. */
  function AdmittedOver(
      limits: Limits, requests: seq<Request>, scope: Scope, subject: string, start: nat, first: nat, n: nat): nat
  {
    if n == 0 then 0
    else
      AdmittedOver(limits, requests, scope, subject, start, first, n - 1)
      + AdmittedAt(limits, requests, Bucket(scope, subject, first + n - 1), start)
  }

  lemma {:induction false} OneMoreRequest(
      limits: Limits, before: seq<Request>, r: Request, scope: Scope, subject: string, start: nat, first: nat, n: nat)
    ensures var more := IsOf(r, scope, subject) && IsWithin(r, start) && Decide(limits, Run(limits, before), r).allowed;
            AdmittedOver(limits, before + [r], scope, subject, start, first, n) ==
            AdmittedOver(limits, before, scope, subject, start, first, n)
            + if more && first <= WindowOf(r.now) < first + n then 1 else 0
    decreases n
  {
    hide Decide, Run, WindowOf;
    assert (before + [r])[..|before|] == before;
    if n > 0 {
      OneMoreRequest(limits, before, r, scope, subject, start, first, n - 1);
    }
  }

  /** Which windows the requests counted in the interval can belong to: those from `first` on. */
  predicate IsFrom(requests: seq<Request>, start: nat, first: nat) {
    forall i :: 0 <= i < |requests| && IsWithin(requests[i], start) ==> first <= WindowOf(requests[i].now)
  }

  lemma {:induction false} PrefixIsFrom(before: seq<Request>, r: Request, start: nat, first: nat)
    requires IsFrom(before + [r], start, first)
    ensures IsFrom(before, start, first) && (IsWithin(r, start) ==> first <= WindowOf(r.now))
  {
    hide WindowOf, IsWithin;
    var all := before + [r];
    assert all[|before|] == r;
    forall i | 0 <= i < |before| && IsWithin(before[i], start) ensures first <= WindowOf(before[i].now) {
      assert all[i] == before[i];
    }
  }

  lemma {:induction false} NotAfter(r: Request, start: nat)
    requires r.now <= r.at && IsWithin(r, start)
    ensures WindowOf(r.now) <= WindowOf(start) + 1
  {
  }

  lemma {:induction false} OneMoreAdmitted(
      limits: Limits, before: seq<Request>, r: Request, scope: Scope, subject: string, start: nat)
    ensures AdmittedIn(limits, before + [r], scope, subject, start) ==
            AdmittedIn(limits, before, scope, subject, start)
            + if IsOf(r, scope, subject) && IsWithin(r, start) && Decide(limits, Run(limits, before), r).allowed then 1
              else 0
  {
    hide Decide, Run, IsOf, IsWithin;
    assert (before + [r])[..|before|] == before;
  }

  lemma {:induction false} IntervalIsInTheseWindows(
      limits: Limits, requests: seq<Request>, scope: Scope, subject: string, start: nat, first: nat, n: nat)
    requires IsOrdered(requests) && AllAnswered(requests) && IsFrom(requests, start, first)
    requires first + n == WindowOf(start) + 2
    ensures AdmittedIn(limits, requests, scope, subject, start)
         == AdmittedOver(limits, requests, scope, subject, start, first, n)
    decreases |requests|
  {
    hide Decide, Run, WindowOf, IsOrdered, AllAnswered, AdmittedOver, IsWithin, IsOf, IsFrom;
    if requests == [] {
      NobodyAdmitted(limits, scope, subject, start, first, n);
    } else {
      hide AdmittedIn;
      var before, r := requests[..|requests| - 1], requests[|requests| - 1];
      assert requests == before + [r];
      PrefixIsOrdered(before, r);
      PrefixIsFrom(before, r, start, first);
      IntervalIsInTheseWindows(limits, before, scope, subject, start, first, n);
      OneMoreRequest(limits, before, r, scope, subject, start, first, n);
      OneMoreAdmitted(limits, before, r, scope, subject, start);
      if IsWithin(r, start) {
        NotAfter(r, start);
      }
    }
  }

  lemma {:induction false} NobodyAdmitted(limits: Limits, scope: Scope, subject: string, start: nat, first: nat, n: nat)
    ensures AdmittedOver(limits, [], scope, subject, start, first, n) == 0
  {
    if n > 0 {
      NobodyAdmitted(limits, scope, subject, start, first, n - 1);
    }
  }

  lemma {:induction false} WindowsAdmitTheirLimits(
      limits: Limits, requests: seq<Request>, scope: Scope, subject: string, start: nat, first: nat, n: nat)
    requires IsEnabled(limits, scope) && IsOrdered(requests) && AllAnswered(requests)
    ensures AdmittedOver(limits, requests, scope, subject, start, first, n) <= n * LimitOf(limits, scope).value
  {
    hide IsOrdered, AllAnswered;
    if n > 0 {
      WindowsAdmitTheirLimits(limits, requests, scope, subject, start, first, n - 1);
      EachKeyAdmitsTheLimit(limits, requests, Bucket(scope, subject, first + n - 1), start);
      var limit := LimitOf(limits, scope).value;
      assert n * limit == (n - 1) * limit + limit;
    }
  }

  /** In any sixty seconds at most N are admitted for each window that the requests counted then can belong to. */
  lemma {:induction false} AnyMinuteIsBounded(
      limits: Limits, requests: seq<Request>, scope: Scope, subject: string, start: nat, first: nat)
    requires IsEnabled(limits, scope) && IsOrdered(requests) && AllAnswered(requests)
    requires IsFrom(requests, start, first) && first <= WindowOf(start) + 2
    ensures AdmittedIn(limits, requests, scope, subject, start)
         <= (WindowOf(start) + 2 - first) * LimitOf(limits, scope).value
  {
    hide IsOrdered, AllAnswered, IsFrom, WindowOf;
    IntervalIsInTheseWindows(limits, requests, scope, subject, start, first, WindowOf(start) + 2 - first);
    WindowsAdmitTheirLimits(limits, requests, scope, subject, start, first, WindowOf(start) + 2 - first);
  }

  /** That is twice the limit if all are counted in the window in which they read the clock. */
  lemma {:induction false} AnyMinuteAdmitsTwiceTheLimit(
      limits: Limits, requests: seq<Request>, scope: Scope, subject: string, start: nat)
    requires IsEnabled(limits, scope) && IsOrdered(requests) && AllAnswered(requests)
    requires forall i :: 0 <= i < |requests| ==> IsTimely(requests[i])
    ensures AdmittedIn(limits, requests, scope, subject, start) <= 2 * LimitOf(limits, scope).value
  {
    hide AllAnswered;
    forall i | 0 <= i < |requests| && IsWithin(requests[i], start)
      ensures WindowOf(start) <= WindowOf(requests[i].now)
    {
      TimelyWindow(requests[i]);
    }
    AnyMinuteIsBounded(limits, requests, scope, subject, start, WindowOf(start));
  }

  lemma {:induction false} TimelyWindow(r: Request)
    requires r.now <= r.at && IsTimely(r)
    ensures WindowOf(r.now) == WindowOf(r.at)
  {
  }

  /** And three times the limit as long as none is counted more than a minute late. */
  lemma {:induction false} AnyMinuteAdmitsThriceTheLimit(
      limits: Limits, requests: seq<Request>, scope: Scope, subject: string, start: nat)
    requires IsEnabled(limits, scope) && IsOrdered(requests) && AllAnswered(requests)
    requires forall i :: 0 <= i < |requests| ==> requests[i].at <= requests[i].now + WINDOW
    ensures AdmittedIn(limits, requests, scope, subject, start) <= 3 * LimitOf(limits, scope).value
  {
    hide AllAnswered;
    var first := if WindowOf(start) == 0 then 0 else WindowOf(start) - 1;
    AnyMinuteIsBounded(limits, requests, scope, subject, start, first);
  }

  /** The same request `k` times. */
  function Burst(r: Request, k: nat): (rs: seq<Request>)
    ensures |rs| == k && forall i :: 0 <= i < k ==> rs[i] == r
  {
    if k == 0 then [] else Burst(r, k - 1) + [r]
  }

  lemma {:induction false} NoneCounted(requests: seq<Request>, b: Bucket)
    requires LastAt(requests, b).None?
    ensures Streak(requests, b) == 0
    decreases |requests|
  {
    if requests != [] {
      NoneCounted(requests[..|requests| - 1], b);
    }
  }

  lemma {:induction false} OneMoreCounted(before: seq<Request>, r: Request)
    ensures var all, b := before + [r], BucketOf(r);
            && LastAt(all, b) == Some(r.at)
            && Streak(all, b) == if IsAlive(before, b, r.at) then Streak(before, b) + 1 else 1
    ensures forall other :: other != BucketOf(r) ==> LastAt(before + [r], other) == LastAt(before, other)
  {
    hide WindowOf, Subject;
    assert (before + [r])[..|before|] == before;
  }

  /** A burst of requests counted at one moment is one streak, and touches no other window. */
  lemma {:induction false} BurstIsAStreak(before: seq<Request>, r: Request, k: nat)
    requires LastAt(before, BucketOf(r)).None?
    ensures var all, b := before + Burst(r, k), BucketOf(r);
            && Streak(all, b) == k
            && LastAt(all, b) == (if k > 0 then Some(r.at) else None)
            && IsAlive(all, b, r.at) == (k > 0)
    ensures forall other :: other != BucketOf(r) ==> LastAt(before + Burst(r, k), other) == LastAt(before, other)
  {
    hide BucketOf, Streak, LastAt;
    if k == 0 {
      NoneCounted(before, BucketOf(r));
      assert before + [] == before;
    } else {
      BurstIsAStreak(before, r, k - 1);
      OneMoreCounted(before + Burst(r, k - 1), r);
      assert before + Burst(r, k) == before + Burst(r, k - 1) + [r];
    }
  }

  /** Not above the limit, it is admitted whole. */
  lemma {:induction false} BurstIsAdmitted(limits: Limits, before: seq<Request>, r: Request, k: nat, start: nat)
    requires IsEnabled(limits, r.scope) && k <= LimitOf(limits, r.scope).value
    requires AllAnswered(before) && r.reply.Answered? && IsWithin(r, start) && LastAt(before, BucketOf(r)).None?
    ensures var all, subject := before + Burst(r, k), Subject(r.scope, r.identifier);
            && AllAnswered(all)
            && AdmittedIn(limits, all, r.scope, subject, start) ==
               AdmittedIn(limits, before, r.scope, subject, start) + k
  {
    hide Decide, Run, IsEnabled, BucketOf, Subject, IsWithin, Streak, LastAt, IsAlive, AdmittedIn;
    if k == 0 {
      assert before + [] == before;
    } else {
      var all := before + Burst(r, k - 1);
      BurstIsAdmitted(limits, before, r, k - 1, start);
      BurstIsAStreak(before, r, k - 1);
      assert before + Burst(r, k) == all + [r];
      CountIsTheStreak(limits, all, r);
      OneMoreAdmitted(limits, all, r, r.scope, Subject(r.scope, r.identifier), start);
    }
  }

  /** One client's request to the whole service. */
  function RequestAt(client: string, now: nat, at: nat): Request {
    Request(Global, client, now, at, Answered)
  }

  /** N requests of a window counted late, N of the next and N of the one after, all within a minute. */
  function ThreeBursts(client: string, n: nat): seq<Request> {
    Burst(RequestAt(client, 59_999, 90_000), n) + Burst(RequestAt(client, 90_000, 90_000), n)
    + Burst(RequestAt(client, 120_000, 120_000), n)
  }

  lemma {:induction false} ThreeBurstsAreOrdered(client: string, n: nat)
    ensures var requests := ThreeBursts(client, n);
            IsOrdered(requests) && forall i :: 0 <= i < |requests| ==> requests[i].at < requests[i].now + WINDOW
  {
    var requests := ThreeBursts(client, n);
    assert forall i :: 0 <= i < |requests| ==>
        requests[i] == if i < n then RequestAt(client, 59_999, 90_000)
                       else if i < 2 * n then RequestAt(client, 90_000, 90_000)
                       else RequestAt(client, 120_000, 120_000);
  }

  lemma {:induction false} ThreeWindows(client: string)
    ensures BucketOf(RequestAt(client, 59_999, 90_000)) == Bucket(Global, client, 0)
    ensures BucketOf(RequestAt(client, 90_000, 90_000)) == Bucket(Global, client, 1)
    ensures BucketOf(RequestAt(client, 120_000, 120_000)) == Bucket(Global, client, 2)
  {
  }

  /** So the bound is met for every limit, with nobody a whole minute late; then twice the limit does not hold. */
  lemma {:induction false} ThriceTheLimitIsMet(limits: Limits, client: string)
    requires IsEnabled(limits, Global)
    ensures var n := LimitOf(limits, Global).value;
            var requests := ThreeBursts(client, n);
            && IsOrdered(requests) && AllAnswered(requests)
            && (forall i :: 0 <= i < |requests| ==> requests[i].at < requests[i].now + WINDOW)
            && AdmittedIn(limits, requests, Global, client, 90_000) == 3 * n
  {
    var n := LimitOf(limits, Global).value;
    ThreeBurstsAreOrdered(client, n);
    ThreeWindows(client);
    hide BucketOf, IsOrdered, AllAnswered, LastAt, Streak, Burst;
    var x, y, z := RequestAt(client, 59_999, 90_000), RequestAt(client, 90_000, 90_000),
                   RequestAt(client, 120_000, 120_000);
    var first, second := Burst(x, n), Burst(x, n) + Burst(y, n);
    assert [] + first == first;
    NothingYet(limits, client);
    BurstIsAStreak([], x, n);
    BurstIsAdmitted(limits, [], x, n, 90_000);
    BurstIsAStreak(first, y, n);
    BurstIsAdmitted(limits, first, y, n, 90_000);
    BurstIsAdmitted(limits, second, z, n, 90_000);
  }

  lemma {:induction false} NothingYet(limits: Limits, client: string)
    ensures AllAnswered([]) && AdmittedIn(limits, [], Global, client, 90_000) == 0
    ensures forall b :: LastAt([], b).None?
  {
  }

  // ---- The client's address ----

  function NonBlankHops(hops: seq<string>): seq<string> {
    if hops == [] then []
    else
      var rest, last := NonBlankHops(hops[..|hops| - 1]), Trim(hops[|hops| - 1]);
      if last == "" then rest else rest + [last]
  }

  function ClientAddress(forwarded: Option<string>, socketAddress: Option<string>): string {
    var hops := if forwarded.Some? && forwarded.value != "" then NonBlankHops(Split(forwarded.value, ',')) else [];
    if hops != [] then hops[|hops| - 1]
    else if socketAddress.Some? then socketAddress.value else "unknown"
  }

  lemma {:induction false} SplitEndsWith(prefix: string, hop: string)
    requires ',' !in hop
    ensures var parts := Split(prefix + "," + hop, ','); parts[|parts| - 1] == hop
  {
    if prefix == "" {
      assert prefix + "," + hop == "," + hop && ("," + hop)[1..] == hop;
      SplitOne(hop, ',');
    } else {
      assert (prefix + "," + hop)[1..] == prefix[1..] + "," + hop;
      SplitEndsWith(prefix[1..], hop);
      SplitHasTwo(prefix[1..], hop);
    }
  }

  lemma {:induction false} SplitHasTwo(prefix: string, hop: string)
    ensures |Split(prefix + "," + hop, ',')| >= 2
  {
    if prefix == "" {
      assert prefix + "," + hop == "," + hop && ("," + hop)[1..] == hop;
    } else {
      assert (prefix + "," + hop)[1..] == prefix[1..] + "," + hop;
      SplitHasTwo(prefix[1..], hop);
    }
  }

  /** Whatever a client put in the header, the address the last proxy appended is the one that counts. */
  lemma {:induction false} LastHopCounts(spoofed: string, hop: string, socketAddress: Option<string>)
    requires ',' !in hop && Trim(hop) != ""
    ensures ClientAddress(Some(spoofed + "," + hop), socketAddress) == Trim(hop)
  {
    hide Trim, Split;
    SplitEndsWith(spoofed, hop);
  }

  lemma {:induction false} BlankHopsAreDropped(hops: seq<string>)
    requires forall h <- hops :: Trim(h) == ""
    ensures NonBlankHops(hops) == []
  {
    hide Trim;
    if hops != [] {
      assert hops[|hops| - 1] in hops;
      BlankHopsAreDropped(hops[..|hops| - 1]);
    }
  }

  /** Without a header that names anyone, it is the socket's address, and one name for all if there is none. */
  lemma {:induction false} SocketCountsWithoutHops(forwarded: Option<string>, socketAddress: Option<string>)
    requires forwarded.Some? ==> forall h <- Split(forwarded.value, ',') :: Trim(h) == ""
    ensures ClientAddress(forwarded, socketAddress)
         == match socketAddress case Some(address) => address case None => "unknown"
  {
    hide Trim, Split;
    if forwarded.Some? {
      BlankHopsAreDropped(Split(forwarded.value, ','));
    }
  }
}
