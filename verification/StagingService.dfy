/**
 * The staged-attachment table and the two callers that change it: the staging service
 * and `createForSend`.
 */
module StagingService {
  import opened Basics
  import opened Staging

  datatype Outcome = Staged(pendingCount: nat) | Duplicate | Refused(refusal: Refusal)

  /** Discarding removes exactly the user's pending rows. */
  lemma {:induction false} DiscardCounts(rows: seq<Row>, user: User, now: Time)
    ensures |DiscardRows(rows, user, now)| + |Find(rows, PendingOf(user, now))| == |rows|
    decreases |rows|
  {
    if rows != [] {
      DiscardCounts(rows[..|rows| - 1], user, now);
    }
  }

  /** A step of a `stage` call of this user. */
  predicate IsStaging(e: Event, user: User) {
    (e.Check? || e.Insert? || e.Die?) && e.user == user
  }

  predicate AreOthers(events: seq<Event>, user: User) {
    forall e <- events :: !IsStaging(e, user)
  }

  lemma {:induction false} OthersLeaveFlight(s: State, events: seq<Event>, user: User)
    requires AreOthers(events, user)
    ensures (user in Run(s, events).flights) == (user in s.flights)
    ensures user in s.flights ==> Run(s, events).flights[user] == s.flights[user]
    decreases |events|
  {
    if events != [] {
      var before := events[..|events| - 1];
      assert forall e <- before :: e in events;
      OthersLeaveFlight(s, before, user);
      OtherLeavesFlight(Run(s, before), events[|events| - 1], user);
    }
  }

  lemma {:induction false} OtherLeavesFlight(s: State, e: Event, user: User)
    requires !IsStaging(e, user)
    ensures (user in Next(s, e).flights) == (user in s.flights)
    ensures user in s.flights ==> Next(s, e).flights[user] == s.flights[user]
  {
    hide Admit, InsertRow, ClaimRows, DiscardRows;
  }

  class Table {
    var rows: seq<Row>
    var clock: Time
    // The staging calls under way and the drafts created, for specification only.
    var flights: map<User, Flight>
    var drafts: set<DraftId>

    function View(): State
      reads this
    {
      State(rows, clock, flights, drafts)
    }

    constructor ()
      ensures View() == Initial
    {
      rows, clock, flights, drafts := [], 0, map[], {};
    }

    method ListPending(user: User) returns (pending: seq<Row>)
      ensures pending == Find(rows, PendingOf(user, clock))
    {
      pending := Find(rows, PendingOf(user, clock));
    }

    /** `reduce((total, file) => total + file.sizeBytes, 0)`. */
    static method TotalBytes(files: seq<Row>) returns (total: nat)
      ensures total == Bytes(files)
    {
      total := 0;
      for i := 0 to |files|
        invariant total == Bytes(files[..i])
      {
        assert files[..i + 1][..i] == files[..i];
        total := total + files[i].size;
      }
      assert files[..|files|] == files;
    }

    /** The repository's `stage`: nothing is inserted when the message has a row. */
    method Insert(user: User, f: Flight) returns (inserted: bool)
      modifies `rows
      ensures inserted <==> !Holds(old(rows), f.message)
      ensures rows == if inserted then old(rows) + [Row(user, f.message, f.size, None, f.expiresAt)] else old(rows)
    {
      inserted := !exists r <- rows :: r.message == f.message;
      if inserted {
        rows := rows + [Row(user, f.message, f.size, None, f.expiresAt)];
      }
    }

    method Become(t: State)
      modifies this
      ensures View() == t
    {
      rows, clock, flights, drafts := t.rows, t.clock, t.flights, t.drafts;
    }

    /** An `await`: time, every other user, and this user's drafts go on; another `stage` of the user does not start. */
    method Wait(user: User) returns (others: seq<Event>)
      modifies this
      ensures View() == Run(old(View()), others) && AreOthers(others, user)
    {
      others := *;
      if exists e <- others :: IsStaging(e, user) {
        others := [];
      }
      Become(Run(View(), others));
    }

    /** The first transaction: the checks in their order. */
    method CheckBudget(user: User, size: nat) returns (refusal: Option<Refusal>, pendingCount: nat)
      ensures refusal == Admit(rows, user, size, clock)
      ensures refusal.None? ==> pendingCount == |Find(rows, PendingOf(user, clock))|
    {
      if size > MAX_BYTES {
        return Some(TooLarge), 0;
      }
      var pending := ListPending(user);
      var pendingBytes := TotalBytes(pending);
      refusal := if pendingBytes + size > MAX_BYTES then Some(OverBudget)
                 else if |pending| >= MAX_FILES then Some(TooMany)
                 else None;
      pendingCount := |pending|;
    }

    /**
     * The service's `stage`: the checks in their order, and the insert in a transaction of
     * its own, with `others` between the two. A redelivered message is a duplicate only
     * after it passes the checks, and by the rows at the time of the insert; the count is
     * that of the check.
     */
    method Stage(user: User, message: Message, size: nat, sentAt: Time)
        returns (outcome: Outcome, others: seq<Event>)
      requires user !in flights
      modifies this
      ensures AreOthers(others, user)
      ensures var checked := Next(old(View()), Check(user, message, size, sentAt));
              match outcome
              case Refused(refusal) =>
                View() == checked == old(View()) && old(Admit(rows, user, size, clock)) == Some(refusal)
              case Duplicate =>
                && old(Admit(rows, user, size, clock)).None? && Holds(Run(checked, others).rows, message)
                && View() == Next(Run(checked, others), Event.Insert(user)) && rows == Run(checked, others).rows
              case Staged(count) =>
                && old(Admit(rows, user, size, clock)).None? && !Holds(Run(checked, others).rows, message)
                && View() == Next(Run(checked, others), Event.Insert(user))
                && rows == Run(checked, others).rows + [Row(user, message, size, None, sentAt + TTL_MS)]
                && count == old(|Find(rows, PendingOf(user, clock))|) + 1
    {
      hide Run, Admit, Find;
      others := [];
      var refusal, pendingCount := CheckBudget(user, size);
      if refusal.Some? {
        return Refused(refusal.value), others;
      }
      var f := Flight(message, size, sentAt + TTL_MS);
      flights := flights[user := f];
      ghost var checked := View();
      others := Wait(user);
      OthersLeaveFlight(checked, others, user);
      var inserted := Insert(user, f);
      flights := flights - {user};
      outcome := if inserted then Staged(pendingCount + 1) else Duplicate;
    }

    /** `createForSend`: draft and claim of the pending files commit together; the count is that of its files. */
    method CreateForSend(user: User, draft: DraftId) returns (attachmentCount: nat)
      requires draft !in drafts
      modifies `rows, `drafts
      ensures View() == Next(old(View()), Compose(user, draft))
      ensures (forall r <- old(rows) :: r.draft != Some(draft)) ==> attachmentCount == |Find(rows, OnDraft(draft))|
      ensures attachmentCount == old(|Find(rows, PendingOf(user, clock))|)
    {
      hide Find, ClaimRows;
      attachmentCount := |Find(rows, PendingOf(user, clock))|;
      if forall r <- rows :: r.draft != Some(draft) {
        ClaimMovesPending(rows, user, draft, clock);
      }
      rows := ClaimRows(rows, user, draft, clock);
      drafts := drafts + {draft};
    }

    method DiscardPending(user: User) returns (count: nat)
      modifies `rows
      ensures View() == Next(old(View()), Discard(user))
      ensures count == old(|Find(rows, PendingOf(user, clock))|)
    {
      var left := DiscardRows(rows, user, clock);
      DiscardCounts(rows, user, clock);
      count := |rows| - |left|;
      rows := left;
    }
  }
}
