/**
 * Files sent into the chat, held for the next email
 * (`StagedAttachmentRepository`, `AttachmentStagingService.stage`, and the claim
 * inside `DraftRepository.createForSend`).
 *
 * A `stage` call reads the pending set and checks the budget in one transaction and
 * inserts in another, so other steps fall in between. One chat handler runs per user
 * at a time, and the clock never goes back; both are assumptions of the budget
 * theorem, and `RacingStagesOverrun` shows the first one is needed.
 */
module Staging {
  import opened Basics

  type User = nat
  type Message = nat
  type DraftId = nat
  type Time = int

  const MAX_BYTES: nat := 20 * 1024 * 1024
  const MAX_FILES: nat := 10
  const TTL_MS: nat := 24 * 60 * 60 * 1000

  datatype Row = Row(user: User, message: Message, size: nat, draft: Option<DraftId>, expiresAt: Time)

  /** Which rows a query matches. */
  datatype Selector = PendingOf(user: User, now: Time) | OnDraft(draft: DraftId)

  predicate Matches(row: Row, sel: Selector) {
    match sel
    case PendingOf(user, now) => row.user == user && row.draft.None? && row.expiresAt > now
    case OnDraft(draft) => row.draft == Some(draft)
  }

  /** The table, oldest row first. */
  function Find(rows: seq<Row>, sel: Selector): (found: seq<Row>)
    ensures forall r <- found :: r in rows && Matches(r, sel)
    decreases |rows|
  {
    if rows == [] then []
    else
      var last := rows[|rows| - 1];
      Find(rows[..|rows| - 1], sel) + (if Matches(last, sel) then [last] else [])
  }

  function Bytes(rows: seq<Row>): nat
    decreases |rows|
  {
    if rows == [] then 0 else Bytes(rows[..|rows| - 1]) + rows[|rows| - 1].size
  }

  predicate Holds(rows: seq<Row>, message: Message) {
    exists r <- rows :: r.message == message
  }

  function Claimed(row: Row, user: User, draft: DraftId, now: Time): Row {
    if Matches(row, PendingOf(user, now)) then row.(draft := Some(draft)) else row
  }

  /** `claimForDraft`: the conditional update over the whole table. */
  function ClaimRows(rows: seq<Row>, user: User, draft: DraftId, now: Time): seq<Row> {
    seq(|rows|, i requires 0 <= i < |rows| => Claimed(rows[i], user, draft, now))
  }

  /** `discardPending`: what the delete leaves. */
  function DiscardRows(rows: seq<Row>, user: User, now: Time): (left: seq<Row>)
    ensures forall r :: r in left <==> r in rows && !Matches(r, PendingOf(user, now))
    decreases |rows|
  {
    if rows == [] then []
    else
      var last := rows[|rows| - 1];
      DiscardRows(rows[..|rows| - 1], user, now) + (if Matches(last, PendingOf(user, now)) then [] else [last])
  }

  datatype Refusal = TooLarge | OverBudget | TooMany

  /** The checks of `stage`, in their order. */
  function Admit(rows: seq<Row>, user: User, size: nat, now: Time): Option<Refusal> {
    var pending := Find(rows, PendingOf(user, now));
    if size > MAX_BYTES then Some(TooLarge)
    else if Bytes(pending) + size > MAX_BYTES then Some(OverBudget)
    else if |pending| >= MAX_FILES then Some(TooMany)
    else None
  }

  /** A `stage` call that passed the checks and has not inserted yet. */
  datatype Flight = Flight(message: Message, size: nat, expiresAt: Time)

  /** The insert of a `stage` call: nothing if the message has a row. */
  function InsertRow(rows: seq<Row>, user: User, f: Flight): seq<Row> {
    if Holds(rows, f.message) then rows else rows + [Row(user, f.message, f.size, None, f.expiresAt)]
  }

  datatype State = State(rows: seq<Row>, clock: Time, flights: map<User, Flight>, drafts: set<DraftId>)

  const Initial := State([], 0, map[], {})

  datatype Event =
    | Tick(ms: nat)
    | Check(user: User, message: Message, size: nat, sentAt: Time)
    | Insert(user: User)
    | Die(user: User)
    | Compose(user: User, draft: DraftId)
    | Discard(user: User)

  function Next(s: State, e: Event): State {
    match e
    case Tick(ms) => s.(clock := s.clock + ms)
    case Check(user, message, size, sentAt) =>
      if user in s.flights || Admit(s.rows, user, size, s.clock).Some? then s
      else s.(flights := s.flights[user := Flight(message, size, sentAt + TTL_MS)])
    case Insert(user) =>
      if user !in s.flights then s else
      var f := s.flights[user];
      s.(flights := s.flights - {user},
         rows := InsertRow(s.rows, user, f))
    case Die(user) => s.(flights := s.flights - {user})
    case Compose(user, draft) =>
      if draft in s.drafts then s
      else s.(rows := ClaimRows(s.rows, user, draft, s.clock), drafts := s.drafts + {draft})
    case Discard(user) => s.(rows := DiscardRows(s.rows, user, s.clock))
  }

  function Run(s: State, events: seq<Event>): State
    decreases |events|
  {
    if events == [] then s else Next(Run(s, events[..|events| - 1]), events[|events| - 1])
  }

  /**
   * A file passes exactly if it is at most 20 MB, with the user's pending files too, and fewer than
   * ten of those are waiting; and the first of these that fails is the reason given.
   */
  lemma {:induction false} AdmittedExactly(rows: seq<Row>, user: User, size: nat, now: Time)
    ensures var pending := Find(rows, PendingOf(user, now));
            var limit, refusal := 20 * 1024 * 1024, Admit(rows, user, size, now);
            && (refusal.None? <==> Bytes(pending) + size <= limit && |pending| < 10)
            && (refusal == Some(TooLarge) <==> size > limit)
            && (refusal == Some(TooMany) <==> Bytes(pending) + size <= limit && |pending| >= 10)
  {
  }

  /** A file that passes is held for a day from when it was sent. */
  lemma {:induction false} HeldForADay(s: State, user: User, message: Message, size: nat, sentAt: Time)
    requires user !in s.flights && Admit(s.rows, user, size, s.clock).None?
    requires !Holds(s.rows, message)
    ensures var t := Next(Next(s, Check(user, message, size, sentAt)), Insert(user));
            t.rows == s.rows + [Row(user, message, size, None, sentAt + 86_400_000)]
  {
  }

  /** Which rows a selection holds, in the order of the table and as often as they are there. */
  lemma {:induction false} FindIsTheSelected(rows: seq<Row>, sel: Selector, row: Row)
    ensures multiset(Find(rows, sel))[row] == if Matches(row, sel) then multiset(rows)[row] else 0
    decreases |rows|
  {
    if rows != [] {
      var before, last := rows[..|rows| - 1], rows[|rows| - 1];
      FindIsTheSelected(before, sel, row);
      hide Matches;
      OneMoreRow(before, last, row);
      OneMoreRow(Find(before, sel), last, row);
      assert rows == before + [last];
    }
  }

  /** What waits for the user's next email: on no draft, and not expired. */
  predicate Waits(row: Row, user: User, now: Time) {
    row.user == user && row.draft == None && now < row.expiresAt
  }

  /** Composing puts exactly the files that wait on the draft, and leaves every other row as it was. */
  lemma {:induction false} ComposeClaimsExactly(s: State, user: User, draft: DraftId)
    requires draft !in s.drafts
    ensures var t := Next(s, Compose(user, draft));
            && |t.rows| == |s.rows|
            && forall i :: 0 <= i < |s.rows| ==>
                 t.rows[i] == if Waits(s.rows[i], user, s.clock) then s.rows[i].(draft := Some(draft)) else s.rows[i]
  {
  }

  /** Discarding deletes exactly the files that wait. */
  lemma {:induction false} DiscardDropsExactly(s: State, user: User, row: Row)
    ensures multiset(Next(s, Discard(user)).rows)[row]
         == if Waits(row, user, s.clock) then 0 else multiset(s.rows)[row]
  {
    LeftAreTheOthers(s.rows, user, s.clock, row);
  }

  lemma OneMoreRow(rows: seq<Row>, last: Row, row: Row)
    ensures multiset(rows + [last])[row] == multiset(rows)[row] + if last == row then 1 else 0
    ensures multiset(rows + [])[row] == multiset(rows)[row]
  {
    assert rows + [] == rows;
  }

  lemma DiscardOneMore(rows: seq<Row>, user: User, now: Time)
    ensures rows == [] ==> DiscardRows(rows, user, now) == []
    ensures rows != [] ==>
              var last := rows[|rows| - 1];
              DiscardRows(rows, user, now)
              == DiscardRows(rows[..|rows| - 1], user, now) + if Waits(last, user, now) then [] else [last]
  {
  }

  lemma {:induction false} LeftAreTheOthers(rows: seq<Row>, user: User, now: Time, row: Row)
    ensures multiset(DiscardRows(rows, user, now))[row] == if Waits(row, user, now) then 0 else multiset(rows)[row]
    decreases |rows|
  {
    hide Matches, Waits, DiscardRows;
    DiscardOneMore(rows, user, now);
    if rows != [] {
      var before, last := rows[..|rows| - 1], rows[|rows| - 1];
      LeftAreTheOthers(before, user, now, row);
      OneMoreRow(before, last, row);
      OneMoreRow(DiscardRows(before, user, now), last, row);
      assert rows == before + [last];
    }
  }

  // ------------------------------------------------------------ sums over selected rows

  /** If what `sel'` selects after a row-by-row update was selected by `sel` before, it is no more. */
  lemma {:induction false} UpdateSelectsNoMore(rows: seq<Row>, rows': seq<Row>, sel: Selector, sel': Selector)
    requires |rows| == |rows'|
    requires forall i :: 0 <= i < |rows| ==>
               rows'[i].size == rows[i].size && (Matches(rows'[i], sel') ==> Matches(rows[i], sel))
    ensures Bytes(Find(rows', sel')) <= Bytes(Find(rows, sel))
    ensures |Find(rows', sel')| <= |Find(rows, sel)|
    decreases |rows|
  {
    if rows != [] {
      var n := |rows| - 1;
      UpdateSelectsNoMore(rows[..n], rows'[..n], sel, sel');
      BytesAppend(Find(rows[..n], sel), rows[n]);
      BytesAppend(Find(rows'[..n], sel'), rows'[n]);
    }
  }

  lemma {:induction false} BytesAppend(rows: seq<Row>, row: Row)
    ensures Bytes(rows + [row]) == Bytes(rows) + row.size
    ensures rows + [] == rows
  {
    assert (rows + [row])[..|rows|] == rows;
  }

  lemma {:induction false} DiscardSelectsNoMore(rows: seq<Row>, user: User, now: Time, sel: Selector)
    ensures Bytes(Find(DiscardRows(rows, user, now), sel)) <= Bytes(Find(rows, sel))
    ensures |Find(DiscardRows(rows, user, now), sel)| <= |Find(rows, sel)|
    decreases |rows|
  {
    if rows != [] {
      var n := |rows| - 1;
      DiscardSelectsNoMore(rows[..n], user, now, sel);
      var kept := DiscardRows(rows[..n], user, now);
      FindAppend(kept, rows[n], sel);
      BytesAppend(Find(kept, sel), rows[n]);
      BytesAppend(Find(rows[..n], sel), rows[n]);
    }
  }

  lemma {:induction false} FindAppend(rows: seq<Row>, row: Row, sel: Selector)
    ensures Find(rows + [row], sel) == Find(rows, sel) + (if Matches(row, sel) then [row] else [])
    ensures rows + [] == rows
  {
    assert (rows + [row])[..|rows|] == rows;
  }

  // ------------------------------------------------------------ the invariant

  predicate Within(files: seq<Row>) {
    Bytes(files) <= MAX_BYTES && |files| <= MAX_FILES
  }

  /** The pending set fits, together with the file a `stage` call is about to insert. */
  predicate PendingOk(s: State, user: User) {
    var pending := Find(s.rows, PendingOf(user, s.clock));
    && Within(pending)
    && (user in s.flights ==>
          Bytes(pending) + s.flights[user].size <= MAX_BYTES && |pending| < MAX_FILES)
  }

  predicate DraftOk(s: State, draft: DraftId) {
    Within(Find(s.rows, OnDraft(draft)))
  }

  /** `whatsappMessageId` is unique. */
  ghost predicate Distinct(rows: seq<Row>) {
    forall i, j :: 0 <= i < j < |rows| ==> rows[i].message != rows[j].message
  }

  ghost predicate Inv(s: State) {
    && Distinct(s.rows)
    && (forall r <- s.rows :: r.draft.Some? ==> r.draft.value in s.drafts)
    && (forall user :: PendingOk(s, user))
    && (forall draft :: DraftOk(s, draft))
  }

  lemma {:induction false} NothingSelected(rows: seq<Row>, sel: Selector)
    requires forall r <- rows :: !Matches(r, sel)
    ensures Find(rows, sel) == []
    decreases |rows|
  {
    if rows != [] {
      NothingSelected(rows[..|rows| - 1], sel);
    }
  }

  lemma {:induction false} TickKeepsInv(s: State, ms: nat)
    requires Inv(s)
    ensures Inv(Next(s, Tick(ms)))
  {
    var t := Next(s, Tick(ms));
    forall user ensures PendingOk(t, user) {
      assert PendingOk(s, user);
      UpdateSelectsNoMore(s.rows, t.rows, PendingOf(user, s.clock), PendingOf(user, t.clock));
    }
    forall draft ensures DraftOk(t, draft) {
      assert DraftOk(s, draft);
    }
  }

  lemma {:induction false} InsertKeepsInv(s: State, user: User)
    requires Inv(s)
    ensures Inv(Next(s, Insert(user)))
  {
    var t := Next(s, Insert(user));
    if user in s.flights && !Holds(s.rows, s.flights[user].message) {
      var f := s.flights[user];
      var row := Row(user, f.message, f.size, None, f.expiresAt);
      assert t.rows == s.rows + [row];
      forall u ensures PendingOk(t, u) {
        assert PendingOk(s, u);
        FindAppend(s.rows, row, PendingOf(u, s.clock));
        BytesAppend(Find(s.rows, PendingOf(u, s.clock)), row);
      }
      forall draft ensures DraftOk(t, draft) {
        assert DraftOk(s, draft);
        FindAppend(s.rows, row, OnDraft(draft));
        BytesAppend(Find(s.rows, OnDraft(draft)), row);
      }
    } else {
      forall u ensures PendingOk(t, u) { assert PendingOk(s, u); }
      forall draft ensures DraftOk(t, draft) { assert DraftOk(s, draft); }
    }
  }

  lemma {:induction false} ComposeKeepsInv(s: State, user: User, draft: DraftId)
    requires Inv(s) && draft !in s.drafts
    ensures Inv(Next(s, Compose(user, draft)))
  {
    var t := Next(s, Compose(user, draft));
    forall u ensures PendingOk(t, u) {
      assert PendingOk(s, u);
      UpdateSelectsNoMore(s.rows, t.rows, PendingOf(u, s.clock), PendingOf(u, s.clock));
    }
    forall d ensures DraftOk(t, d) {
      assert DraftOk(s, d) && PendingOk(s, user);
      var sel := if d == draft then PendingOf(user, s.clock) else OnDraft(d);
      UpdateSelectsNoMore(s.rows, t.rows, sel, OnDraft(d));
    }
    forall r <- t.rows | r.draft.Some? ensures r.draft.value in t.drafts {
      var i :| 0 <= i < |t.rows| && t.rows[i] == r;
      assert s.rows[i] in s.rows;
    }
  }

  lemma {:induction false} DiscardKeepsOrder(rows: seq<Row>, user: User, now: Time)
    requires Distinct(rows)
    ensures Distinct(DiscardRows(rows, user, now))
    decreases |rows|
  {
    if rows != [] {
      var n := |rows| - 1;
      DiscardKeepsOrder(rows[..n], user, now);
      var kept := DiscardRows(rows[..n], user, now);
      assert kept + [] == kept;
      forall i | 0 <= i < |kept| ensures kept[i].message != rows[n].message {
        assert kept[i] in rows[..n];
      }
    }
  }

  lemma {:induction false} DiscardKeepsInv(s: State, user: User)
    requires Inv(s)
    ensures Inv(Next(s, Discard(user)))
  {
    DiscardKeepsOrder(s.rows, user, s.clock);
    DiscardKeepsBudgets(s, Next(s, Discard(user)), user);
  }

  lemma {:induction false} DiscardKeepsBudgets(s: State, t: State, user: User)
    requires Inv(s) && t == s.(rows := DiscardRows(s.rows, user, s.clock))
    ensures (forall u :: PendingOk(t, u)) && (forall draft :: DraftOk(t, draft))
  {
    forall u ensures PendingOk(t, u) {
      assert PendingOk(s, u);
      DiscardSelectsNoMore(s.rows, user, s.clock, PendingOf(u, s.clock));
    }
    forall d ensures DraftOk(t, d) {
      assert DraftOk(s, d);
      DiscardSelectsNoMore(s.rows, user, s.clock, OnDraft(d));
    }
  }

  lemma {:induction false} FlightsKeepInv(s: State, e: Event)
    requires Inv(s) && (e.Check? || e.Die?)
    ensures Inv(Next(s, e))
  {
    var t := Next(s, e);
    forall u ensures PendingOk(t, u) { assert PendingOk(s, u); }
    forall draft ensures DraftOk(t, draft) { assert DraftOk(s, draft); }
  }

  lemma {:induction false} NextKeepsInv(s: State, e: Event)
    requires Inv(s)
    ensures Inv(Next(s, e))
  {
    match e
    case Tick(ms) => TickKeepsInv(s, ms);
    case Insert(user) => InsertKeepsInv(s, user);
    case Compose(user, draft) => if draft !in s.drafts { ComposeKeepsInv(s, user, draft); }
    case Discard(user) => DiscardKeepsInv(s, user);
    case _ => FlightsKeepInv(s, e);
  }

  lemma {:induction false} RunKeepsInv(events: seq<Event>)
    ensures Inv(Run(Initial, events))
    decreases |events|
  {
    if events != [] {
      RunKeepsInv(events[..|events| - 1]);
      NextKeepsInv(Run(Initial, events[..|events| - 1]), events[|events| - 1]);
    }
  }

  // ------------------------------------------------------------ what the user is promised

  /** Whatever was staged, dropped, redelivered or left to expire, every draft's files fit the budget. */
  lemma {:induction false} EveryDraftFits(events: seq<Event>, draft: DraftId)
    ensures var files := Find(Run(Initial, events).rows, OnDraft(draft));
      Bytes(files) <= MAX_BYTES && |files| <= MAX_FILES
  {
    RunKeepsInv(events);
    assert DraftOk(Run(Initial, events), draft);
  }

  /** A file is on at most one draft: two drafts never list files of the same message. */
  lemma {:induction false} OneDraftPerFile(events: seq<Event>, d1: DraftId, d2: DraftId, r1: Row, r2: Row)
    requires r1 in Find(Run(Initial, events).rows, OnDraft(d1))
    requires r2 in Find(Run(Initial, events).rows, OnDraft(d2))
    requires r1.message == r2.message
    ensures d1 == d2 && r1 == r2
  {
    RunKeepsInv(events);
  }

  /** Once claimed, a file is never moved or discarded, and no row is ever claimed by a later draft. */
  lemma {:induction false} ClaimedFilesStay(s: State, events: seq<Event>, row: Row)
    requires row in s.rows && row.draft.Some?
    ensures row in Run(s, events).rows
    decreases |events|
  {
    if events != [] {
      var before := events[..|events| - 1];
      ClaimedFilesStay(s, before, row);
      ClaimedFileStays(Run(s, before), events[|events| - 1], row);
    }
  }

  lemma {:induction false} ClaimedFileStays(s: State, e: Event, row: Row)
    requires row in s.rows && row.draft.Some?
    ensures row in Next(s, e).rows
  {
    var i :| 0 <= i < |s.rows| && s.rows[i] == row;
    if e.Compose? && e.draft !in s.drafts {
      assert Next(s, e).rows[i] == row;
    }
  }

  /** A compose picks up exactly the user's pending files, and leaves none of them pending. */
  lemma {:induction false} ComposeTakesAllPending(events: seq<Event>, user: User, draft: DraftId)
    requires draft !in Run(Initial, events).drafts
    ensures var s := Run(Initial, events);
      var t := Next(s, Compose(user, draft));
      var pending := Find(s.rows, PendingOf(user, s.clock));
      && Find(t.rows, PendingOf(user, s.clock)) == []
      && Find(t.rows, OnDraft(draft)) ==
         seq(|pending|, i requires 0 <= i < |pending| => pending[i].(draft := Some(draft)))
  {
    RunKeepsInv(events);
    var s := Run(Initial, events);
    var t := Next(s, Compose(user, draft));
    NothingSelected(t.rows, PendingOf(user, s.clock));
    ClaimMovesPending(s.rows, user, draft, s.clock);
  }

  lemma ClaimRowsOneMore(rows: seq<Row>, user: User, draft: DraftId, now: Time)
    requires rows != []
    ensures var n := |rows| - 1;
            ClaimRows(rows, user, draft, now)
              == ClaimRows(rows[..n], user, draft, now) + [Claimed(rows[n], user, draft, now)]
  {
  }

  lemma {:induction false} ClaimMovesPending(rows: seq<Row>, user: User, draft: DraftId, now: Time)
    requires forall r <- rows :: r.draft != Some(draft)
    ensures var pending := Find(rows, PendingOf(user, now));
      Find(ClaimRows(rows, user, draft, now), OnDraft(draft))
        == seq(|pending|, i requires 0 <= i < |pending| => pending[i].(draft := Some(draft)))
    decreases |rows|
  {
    if rows != [] {
      var n := |rows| - 1;
      ClaimMovesPending(rows[..n], user, draft, now);
      ClaimRowsOneMore(rows, user, draft, now);
    }
  }

  /** A redelivered webhook adds nothing exactly when the message's row is still there. */
  lemma {:induction false} RedeliveryAddsNothingExactly(s: State, user: User)
    requires user in s.flights
    ensures Next(s, Insert(user)).rows == s.rows <==> Holds(s.rows, s.flights[user].message)
  {
  }

  lemma {:induction false} BytesOfOne(rows: seq<Row>, row: Row)
    requires row in rows
    ensures row.size <= Bytes(rows)
    decreases |rows|
  {
    if row != rows[|rows| - 1] {
      BytesOfOne(rows[..|rows| - 1], row);
    }
  }

  lemma {:induction false} GoneAfterDiscard(rows: seq<Row>, row: Row, now: Time)
    requires Distinct(rows) && row in rows && Matches(row, PendingOf(row.user, now))
    ensures !Holds(DiscardRows(rows, row.user, now), row.message)
  {
    var k :| 0 <= k < |rows| && rows[k] == row;
    forall r <- DiscardRows(rows, row.user, now) ensures r.message != row.message {
      var i :| 0 <= i < |rows| && rows[i] == r;
      assert i != k;
    }
  }

  lemma {:induction false} AdmittedAfterDiscard(s: State, row: Row)
    requires PendingOk(s, row.user) && row in Find(s.rows, PendingOf(row.user, s.clock))
    ensures Admit(DiscardRows(s.rows, row.user, s.clock), row.user, row.size, s.clock).None?
  {
    hide Find, DiscardRows;
    BytesOfOne(Find(s.rows, PendingOf(row.user, s.clock)), row);
    NothingSelected(DiscardRows(s.rows, row.user, s.clock), PendingOf(row.user, s.clock));
  }

  /** It need not be: a file the user dropped is staged again when its webhook is redelivered. */
  lemma {:induction false} DiscardForgetsTheMessage(events: seq<Event>, row: Row, sentAt: Time)
    requires var s := Run(Initial, events); row in Find(s.rows, PendingOf(row.user, s.clock)) && row.user !in s.flights
    ensures var discarded := Next(Run(Initial, events), Discard(row.user));
            var t := Next(Next(discarded, Check(row.user, row.message, row.size, sentAt)), Insert(row.user));
            && !Holds(discarded.rows, row.message)
            && t.rows == discarded.rows + [row.(expiresAt := sentAt + TTL_MS)]
  {
    hide Distinct, PendingOk, Admit, Holds, Find, DiscardRows, Run;
    RunKeepsInv(events);
    var s := Run(Initial, events);
    GoneAfterDiscard(s.rows, row, s.clock);
    AdmittedAfterDiscard(s, row);
  }

  lemma {:induction false} InsertAdds(rows: seq<Row>, user: User, f: Flight, now: Time)
    requires !Holds(rows, f.message) && f.expiresAt > now
    ensures var before, after := Find(rows, PendingOf(user, now)), Find(InsertRow(rows, user, f), PendingOf(user, now));
            Bytes(after) == Bytes(before) + f.size && |after| == |before| + 1
  {
    var row := Row(user, f.message, f.size, None, f.expiresAt);
    FindAppend(rows, row, PendingOf(user, now));
    BytesAppend(Find(rows, PendingOf(user, now)), row);
  }

  /**
   * Two `stage` calls of one user that check before either inserts overrun the byte budget
   * exactly when their files do not fit together; the second would be refused had it
   * checked after the first one's insert.
   */
  lemma {:induction false} RacingStagesOverrun(rows: seq<Row>, user: User, first: Flight, second: Flight, now: Time)
    requires Admit(rows, user, first.size, now).None? && Admit(rows, user, second.size, now).None?
    requires first.message != second.message && !Holds(rows, first.message) && !Holds(rows, second.message)
    requires first.expiresAt > now && second.expiresAt > now
    ensures var pending := Find(rows, PendingOf(user, now));
            var raced := Find(InsertRow(InsertRow(rows, user, first), user, second), PendingOf(user, now));
            && Bytes(raced) == Bytes(pending) + first.size + second.size && |raced| == |pending| + 2
            && (Bytes(raced) > MAX_BYTES <==>
                  Admit(InsertRow(rows, user, first), user, second.size, now) == Some(OverBudget))
  {
    InsertAdds(rows, user, first, now);
    InsertAdds(InsertRow(rows, user, first), user, second, now);
  }

  /** And two files that are within the budget each can be too much together, with nothing staged before. */
  lemma {:induction false} RacingStagesCanOverrun(user: User, first: Flight, second: Flight, now: Time)
    requires first.size <= MAX_BYTES && second.size <= MAX_BYTES && first.size + second.size > MAX_BYTES
    requires first.message != second.message && first.expiresAt > now && second.expiresAt > now
    ensures Admit([], user, first.size, now).None? && Admit([], user, second.size, now).None?
    ensures Bytes(Find(InsertRow(InsertRow([], user, first), user, second), PendingOf(user, now))) > MAX_BYTES
  {
    RacingStagesOverrun([], user, first, second, now);
  }
}
