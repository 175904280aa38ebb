/**
 * Mail arriving (`IngestProcessor.handle`, `MessageRepository.persist` and
 * `setCursor`, `ContactRepository.recordInbound`), for one user's mailboxes.
 *
 * A mailbox is an append-only history of changes, and a position counts the changes
 * before it. Handlers run concurrently on the same mailbox, read the stored cursor,
 * walk from it, and write back the position the provider reported; any of them may
 * fail or die at any step and write its cursor late. `persist` is a read followed by an
 * insert that skips a duplicate and counts the sender in the same commit.
 */
module Ingest {
  import opened Basics
  import Text

  type Account = nat
  type MessageId = nat
  type Handler = nat
  type Position = nat

  /** The unique key of a stored message: account and provider message id. */
  datatype Key = Key(account: Account, id: MessageId)

  /** The `From:` address of a fetched message, as the provider gave it. */
  datatype Sender = Sender(address: string)

  datatype Change = Added(id: MessageId) | Other

  datatype Pc =
    | Starting(account: Account)
    | Initialising(account: Account)                              // no cursor stored
    | Walking(account: Account, at: Position)                     // every change below `at` was yielded and dealt with
    | Fetching(account: Account, at: Position, id: MessageId)
    | Looking(account: Account, at: Position, id: MessageId, sender: Sender)
    | Inserting(account: Account, at: Position, id: MessageId, sender: Sender)
    | Enqueueing(account: Account, at: Position, id: MessageId)
    | Resyncing(account: Account)                                 // the cursor was too old
    | Setting(account: Account, position: Position, reset: bool)
    | Over

  /**
   * `logs` is the provider's side; `cursors`, `stored` (message to sender address) and
   * `contacts` (address to `messagesReceived`) are the tables. The rest is history:
   * messages the provider no longer had when asked, the highest position an account was
   * reset to, every position the provider reported, how often `persist` said `isNew`,
   * which handler it said it to, how often a message's analysis was enqueued, and the
   * messages whose handler failed or died between storing and enqueueing them.
   */
  datatype State = State(
    logs: map<Account, seq<Change>>,
    cursors: map<Account, Position>, stored: map<Key, Sender>, contacts: map<string, nat>,
    handlers: map<Handler, Pc>,
    vanished: set<Key>, resets: map<Account, Position>, reported: set<(Account, Position)>,
    isNew: map<Key, nat>, winner: map<Key, Handler>, enqueued: map<Key, nat>, dropped: set<Key>)

  const Initial := State(map[], map[], map[], map[], map[], {}, map[], {}, map[], map[], map[], {})

  datatype Event =
    | Arrive(account: Account, change: Change)
    | Start(h: Handler, account: Account)
    | Load(h: Handler)
    | Yield(h: Handler)
    | Gone(h: Handler)                       // the provider answers NOT_FOUND
    | Got(h: Handler, sender: Sender)
    | Look(h: Handler)
    | Insert(h: Handler)
    | Enqueue(h: Handler)
    | Finish(h: Handler, reports: bool)
    | Expire(h: Handler)
    | Fresh(h: Handler)
    | SetCursor(h: Handler)
    | Die(h: Handler)

  function Log(s: State, a: Account): seq<Change> {
    if a in s.logs then s.logs[a] else []
  }

  function At<K(==)>(counts: map<K, nat>, k: K): nat {
    if k in counts then counts[k] else 0
  }

  // ------------------------------------------------------------ contacts

  function Normalized(address: string): string {
    Text.Lower(Text.Trim(address))
  }

  /** The contact a sender's address belongs to, if it is an address at all. */
  function ContactOf(sender: Sender): Option<string> {
    var address := Normalized(sender.address);
    if address == "" || '@' !in address then None else Some(address)
  }

  /** `recordInbound`: creates the contact with one message or counts one more. */
  function Record(contacts: map<string, nat>, sender: Sender): map<string, nat> {
    match ContactOf(sender)
    case None => contacts
    case Some(address) => contacts[address := At(contacts, address) + 1]
  }

  /** The messages stored from an address. */
  function From(stored: map<Key, Sender>, address: string): set<Key> {
    set k | k in stored && ContactOf(stored[k]) == Some(address)
  }

  // ------------------------------------------------------------ one step

  /** Where a handler is; one that has not started counts as over. */
  function PcOf(s: State, h: Handler): Pc {
    if h in s.handlers then s.handlers[h] else Over
  }

  function Higher(a: Position, b: Position): Position { if a < b then b else a }

  function DoLoad(s: State, h: Handler): State {
    match PcOf(s, h)
    case Starting(a) =>
      s.(handlers := s.handlers[h := if a in s.cursors then Walking(a, s.cursors[a]) else Initialising(a)])
    case _ => s
  }

  function DoYield(s: State, h: Handler): State {
    match PcOf(s, h)
    case Walking(a, at) =>
      var log := Log(s, a);
      if at >= |log| then s
      else s.(handlers := s.handlers[h := if log[at].Added? then Fetching(a, at, log[at].id) else Walking(a, at + 1)])
    case _ => s
  }

  /** A message deleted between its history record and the fetch is skipped. */
  function DoGone(s: State, h: Handler): State {
    match PcOf(s, h)
    case Fetching(a, at, id) =>
      s.(handlers := s.handlers[h := Walking(a, at + 1)], vanished := s.vanished + {Key(a, id)})
    case _ => s
  }

  function DoGot(s: State, h: Handler, sender: Sender): State {
    match PcOf(s, h)
    case Fetching(a, at, id) => s.(handlers := s.handlers[h := Looking(a, at, id, sender)])
    case _ => s
  }

  function DoLook(s: State, h: Handler): State {
    match PcOf(s, h)
    case Looking(a, at, id, sender) =>
      s.(handlers := s.handlers[h :=
        if Key(a, id) in s.stored then Walking(a, at + 1) else Inserting(a, at, id, sender)])
    case _ => s
  }

  /** The insert and the contact commit together; a row that appeared meanwhile makes it a no-op. */
  function DoInsert(s: State, h: Handler): State {
    match PcOf(s, h)
    case Inserting(a, at, id, sender) =>
      var key := Key(a, id);
      if key in s.stored then s.(handlers := s.handlers[h := Walking(a, at + 1)])
      else
        s.(handlers := s.handlers[h := Enqueueing(a, at, id)],
           stored := s.stored[key := sender],
           contacts := Record(s.contacts, sender),
           isNew := s.isNew[key := At(s.isNew, key) + 1],
           winner := s.winner[key := h])
    case _ => s
  }

  function DoEnqueue(s: State, h: Handler): State {
    match PcOf(s, h)
    case Enqueueing(a, at, id) =>
      s.(handlers := s.handlers[h := Walking(a, at + 1)],
         enqueued := s.enqueued[Key(a, id) := At(s.enqueued, Key(a, id)) + 1])
    case _ => s
  }

  /** The generator returns: everything below `at` was yielded, and the provider reports that position or none. */
  function DoFinish(s: State, h: Handler, reports: bool): State {
    match PcOf(s, h)
    case Walking(a, at) =>
      if reports then
        s.(handlers := s.handlers[h := Setting(a, at, false)], reported := s.reported + {(a, at)})
      else s.(handlers := s.handlers[h := Over])
    case _ => s
  }

  /** The message a handler has stored and is about to enqueue. */
  function Owed(pc: Pc): set<Key> {
    match pc
    case Enqueueing(a, _, id) => {Key(a, id)}
    case _ => {}
  }

  /** The mailbox a handler is walking, while it is inside its `try`. */
  function WalkOf(pc: Pc): Option<Account> {
    match pc
    case Walking(a, _) => Some(a)
    case Fetching(a, _, _) => Some(a)
    case Looking(a, _, _, _) => Some(a)
    case Inserting(a, _, _, _) => Some(a)
    case Enqueueing(a, _, _) => Some(a)
    case _ => None
  }

  /** An error that reads as an expired history sends the handler to resynchronise, from anywhere in its `try`. */
  function DoExpire(s: State, h: Handler): State {
    match WalkOf(PcOf(s, h))
    case Some(a) =>
      s.(handlers := s.handlers[h := Resyncing(a)], dropped := s.dropped + Owed(PcOf(s, h)))
    case None => s
  }

  /** Any other error ends the handler, and so does a crash. */
  function DoDie(s: State, h: Handler): State {
    if h !in s.handlers then s
    else s.(handlers := s.handlers[h := Over], dropped := s.dropped + Owed(PcOf(s, h)))
  }

  function FreshPosition(s: State, h: Handler, a: Account): State {
    var position := |Log(s, a)|;
    s.(handlers := s.handlers[h := Setting(a, position, true)], reported := s.reported + {(a, position)})
  }

  /** `getInitialCursor`: the mailbox's position now. */
  function DoFresh(s: State, h: Handler): State {
    match PcOf(s, h)
    case Initialising(a) => FreshPosition(s, h, a)
    case Resyncing(a) => FreshPosition(s, h, a)
    case _ => s
  }

  function DoSetCursor(s: State, h: Handler): State {
    match PcOf(s, h)
    case Setting(a, position, reset) =>
      s.(handlers := s.handlers[h := Over],
         cursors := s.cursors[a := position],
         resets := if reset then s.resets[a := Higher(At(s.resets, a), position)] else s.resets)
    case _ => s
  }

  function Next(s: State, e: Event): State {
    match e
    case Arrive(a, change) => s.(logs := s.logs[a := Log(s, a) + [change]])
    case Start(h, a) => if h in s.handlers then s else s.(handlers := s.handlers[h := Starting(a)])
    case Load(h) => DoLoad(s, h)
    case Yield(h) => DoYield(s, h)
    case Gone(h) => DoGone(s, h)
    case Got(h, sender) => DoGot(s, h, sender)
    case Look(h) => DoLook(s, h)
    case Insert(h) => DoInsert(s, h)
    case Enqueue(h) => DoEnqueue(s, h)
    case Finish(h, reports) => DoFinish(s, h, reports)
    case Expire(h) => DoExpire(s, h)
    case Fresh(h) => DoFresh(s, h)
    case SetCursor(h) => DoSetCursor(s, h)
    case Die(h) => DoDie(s, h)
  }

  function Run(s: State, events: seq<Event>): State
    decreases |events|
  {
    if events == [] then s else Next(Run(s, events[..|events| - 1]), events[|events| - 1])
  }

  // ------------------------------------------------------------ the invariant

  /** The change at `i` needs no further attention. */
  predicate Dealt(s: State, a: Account, i: Position)
    requires i < |Log(s, a)|
  {
    var change := Log(s, a)[i];
    change.Added? ==>
      Key(a, change.id) in s.stored || Key(a, change.id) in s.vanished || i < At(s.resets, a)
  }

  predicate Covered(s: State, a: Account, position: Position) {
    position <= |Log(s, a)| && forall i :: 0 <= i < position ==> Dealt(s, a, i)
  }

  /** The handler is dealing with the message added at `at`. */
  predicate Handling(s: State, a: Account, at: Position, id: MessageId) {
    Covered(s, a, at) && at < |Log(s, a)| && Log(s, a)[at] == Added(id)
  }

  predicate PcOk(s: State, h: Handler, pc: Pc) {
    match pc
    case Walking(a, at) => Covered(s, a, at)
    case Fetching(a, at, id) => Handling(s, a, at, id)
    case Looking(a, at, id, _) => Handling(s, a, at, id)
    case Inserting(a, at, id, _) => Handling(s, a, at, id)
    case Enqueueing(a, at, id) =>
      && Handling(s, a, at, id)
      && Key(a, id) in s.stored && Key(a, id) in s.winner && s.winner[Key(a, id)] == h
    case Setting(a, position, reset) =>
      && (a, position) in s.reported && position <= |Log(s, a)|
      && (!reset ==> Covered(s, a, position))
    case _ => true
  }

  predicate CursorOk(s: State, a: Account)
    requires a in s.cursors
  {
    (a, s.cursors[a]) in s.reported && Covered(s, a, s.cursors[a])
  }

  /** One report of `isNew` per stored message, and at most one analysis job per report. */
  ghost predicate Counted(s: State) {
    && s.winner.Keys == s.stored.Keys
    && (forall k :: At(s.isNew, k) == if k in s.stored then 1 else 0)
    && (forall k {:trigger Accounted(s, k)} :: Accounted(s, k))
  }

  /** A stored message was enqueued once, or is about to be by the handler that stored it, or was dropped there. */
  predicate Accounted(s: State, k: Key) {
    At(s.enqueued, k)
    + (if k in s.winner && k in Owed(PcOf(s, s.winner[k])) then 1 else 0)
    + (if k in s.dropped then 1 else 0)
    == if k in s.stored then 1 else 0
  }

  ghost predicate ContactsOk(s: State) {
    && (forall address :: At(s.contacts, address) == |From(s.stored, address)|)
    && (forall address :: address in s.contacts <==> From(s.stored, address) != {})
  }

  ghost predicate Inv(s: State) {
    && (forall h {:trigger PcOk(s, h, s.handlers[h])} :: h in s.handlers ==> PcOk(s, h, s.handlers[h]))
    && (forall a {:trigger CursorOk(s, a)} :: a in s.cursors ==> CursorOk(s, a))
    && Counted(s)
    && ContactsOk(s)
  }

  // ------------------------------------------------------------ every step keeps it

  /** What a step by `h` may change; -1 stands for mail arriving. */
  ghost predicate Grows(s: State, t: State, h: int) {
    && (forall a :: |Log(s, a)| <= |Log(t, a)| && Log(t, a)[..|Log(s, a)|] == Log(s, a))
    && s.stored.Keys <= t.stored.Keys && s.vanished <= t.vanished && s.reported <= t.reported
    && (forall a :: At(s.resets, a) <= At(t.resets, a))
    && (forall k <- s.winner :: k in t.winner && t.winner[k] == s.winner[k])
    && (forall g <- t.handlers :: g != h ==> g in s.handlers && t.handlers[g] == s.handlers[g])
  }

  lemma {:induction false} CoveredGrows(s: State, t: State, h: int, a: Account, position: Position)
    requires Grows(s, t, h) && Covered(s, a, position)
    ensures Covered(t, a, position)
  {
    forall i | 0 <= i < position ensures Dealt(t, a, i) {
      assert Dealt(s, a, i);
      assert Log(t, a)[i] == Log(t, a)[..|Log(s, a)|][i];
    }
  }

  lemma {:induction false} HandlingGrows(s: State, t: State, h: int, a: Account, at: Position, id: MessageId)
    requires Grows(s, t, h) && Handling(s, a, at, id)
    ensures Handling(t, a, at, id)
  {
    CoveredGrows(s, t, h, a, at);
    assert Log(t, a)[at] == Log(t, a)[..|Log(s, a)|][at];
  }

  /** A message dealt with moves the walk one change on. */
  lemma {:induction false} WalkOn(s: State, a: Account, at: Position)
    requires Covered(s, a, at) && at < |Log(s, a)| && Dealt(s, a, at)
    ensures Covered(s, a, at + 1)
  {
  }

  lemma {:induction false} OtherCarries(s: State, t: State, h: int, g: Handler, pc: Pc)
    requires Grows(s, t, h) && g != h && PcOk(s, g, pc)
    ensures PcOk(t, g, pc)
  {
    match pc
    case Walking(a, at) => CoveredGrows(s, t, h, a, at);
    case Fetching(a, at, id) => HandlingGrows(s, t, h, a, at, id);
    case Looking(a, at, id, _) => HandlingGrows(s, t, h, a, at, id);
    case Inserting(a, at, id, _) => HandlingGrows(s, t, h, a, at, id);
    case Enqueueing(a, at, id) => HandlingGrows(s, t, h, a, at, id);
    case Setting(a, position, reset) =>
      assert |Log(s, a)| <= |Log(t, a)|;
      if !reset { CoveredGrows(s, t, h, a, position); }
    case _ =>
  }

  /** The part of the invariant about handlers and cursors, for any step that only grows the state. */
  lemma {:induction false} StepKeepsCoverage(s: State, t: State, h: int)
    requires Inv(s) && Grows(s, t, h)
    requires h in t.handlers ==> PcOk(t, h, t.handlers[h])
    requires forall a <- t.cursors :: (a in s.cursors && t.cursors[a] == s.cursors[a]) || CursorOk(t, a)
    ensures forall g {:trigger PcOk(t, g, t.handlers[g])} :: g in t.handlers ==> PcOk(t, g, t.handlers[g])
    ensures forall a {:trigger CursorOk(t, a)} :: a in t.cursors ==> CursorOk(t, a)
  {
    forall g <- t.handlers | g != h ensures PcOk(t, g, t.handlers[g]) {
      assert PcOk(s, g, s.handlers[g]);
      OtherCarries(s, t, h, g, s.handlers[g]);
    }
    forall a <- t.cursors ensures CursorOk(t, a) {
      if a in s.cursors && t.cursors[a] == s.cursors[a] {
        assert CursorOk(s, a);
        CoveredGrows(s, t, h, a, s.cursors[a]);
      }
    }
  }

  lemma {:induction false} ArriveKeepsInv(s: State, t: State, a: Account, change: Change)
    requires Inv(s) && t == Next(s, Arrive(a, change))
    ensures Inv(t)
  {
    assert Grows(s, t, -1);
    StepKeepsCoverage(s, t, -1);
    ArriveCounts(s, t, a, change);
  }

  lemma {:induction false} ArriveCounts(s: State, t: State, a: Account, change: Change)
    requires Counted(s) && t == Next(s, Arrive(a, change))
    ensures Counted(t)
  {
    forall k ensures Accounted(t, k) {
      assert Accounted(s, k);
    }
    forall k ensures At(t.isNew, k) == if k in t.stored then 1 else 0 {
      assert At(s.isNew, k) == if k in s.stored then 1 else 0;
    }
  }

  /** A step that only moves its own handler, with whatever it learnt. */
  ghost predicate Quiet(s: State, t: State, h: Handler) {
    && t == s.(handlers := t.handlers, vanished := t.vanished, reported := t.reported)
    && s.vanished <= t.vanished && s.reported <= t.reported
    && (forall g <- t.handlers :: g != h ==> g in s.handlers && t.handlers[g] == s.handlers[g])
    && (forall g <- s.handlers :: g in t.handlers)
    && Owed(PcOf(s, h)) == {} && Owed(PcOf(t, h)) == {}
  }

  lemma {:induction false} QuietKeepsInv(s: State, t: State, h: Handler)
    requires Inv(s) && Quiet(s, t, h) && (h in t.handlers ==> PcOk(t, h, t.handlers[h]))
    ensures Inv(t)
  {
    assert Grows(s, t, h);
    StepKeepsCoverage(s, t, h);
    QuietKeepsAccounts(s, t, h);
  }

  lemma {:induction false} QuietKeepsAccounts(s: State, t: State, h: Handler)
    requires Counted(s) && Quiet(s, t, h)
    ensures Counted(t)
  {
    forall k ensures Accounted(t, k) {
      assert Accounted(s, k);
    }
    forall k ensures At(t.isNew, k) == if k in t.stored then 1 else 0 {
      assert At(s.isNew, k) == if k in s.stored then 1 else 0;
    }
  }

  lemma {:induction false} LoadKeepsInv(s: State, t: State, h: Handler)
    requires Inv(s) && t == DoLoad(s, h) && t != s
    ensures Inv(t)
  {
    var Starting(a) := s.handlers[h];
    if a in s.cursors {
      assert CursorOk(s, a);
      assert Grows(s, t, h);
      CoveredGrows(s, t, h, a, s.cursors[a]);
    }
    QuietKeepsInv(s, t, h);
  }

  lemma {:induction false} YieldKeepsInv(s: State, t: State, h: Handler)
    requires Inv(s) && t == DoYield(s, h) && t != s
    ensures Inv(t)
  {
    assert PcOk(s, h, s.handlers[h]);
    var Walking(a, at) := s.handlers[h];
    assert Grows(s, t, h);
    CoveredGrows(s, t, h, a, at);
    if Log(s, a)[at].Other? { WalkOn(t, a, at); }
    QuietKeepsInv(s, t, h);
  }

  lemma {:induction false} GoneKeepsInv(s: State, t: State, h: Handler)
    requires Inv(s) && t == DoGone(s, h) && PcOf(s, h).Fetching?
    ensures Inv(t)
  {
    assert PcOk(s, h, s.handlers[h]);
    var Fetching(a, at, id) := s.handlers[h];
    assert Grows(s, t, h);
    HandlingGrows(s, t, h, a, at, id);
    WalkOn(t, a, at);
    QuietKeepsInv(s, t, h);
  }

  lemma {:induction false} GotKeepsInv(s: State, t: State, h: Handler, sender: Sender)
    requires Inv(s) && t == DoGot(s, h, sender) && PcOf(s, h).Fetching?
    ensures Inv(t)
  {
    assert PcOk(s, h, s.handlers[h]);
    var Fetching(a, at, id) := s.handlers[h];
    assert Grows(s, t, h);
    HandlingGrows(s, t, h, a, at, id);
    QuietKeepsInv(s, t, h);
  }

  lemma {:induction false} LookKeepsInv(s: State, t: State, h: Handler)
    requires Inv(s) && t == DoLook(s, h) && t != s
    ensures Inv(t)
  {
    assert PcOk(s, h, s.handlers[h]);
    var Looking(a, at, id, _) := s.handlers[h];
    assert Grows(s, t, h);
    HandlingGrows(s, t, h, a, at, id);
    if Key(a, id) in s.stored { WalkOn(t, a, at); }
    QuietKeepsInv(s, t, h);
  }

  lemma {:induction false} FinishKeepsInv(s: State, t: State, h: Handler, reports: bool)
    requires Inv(s) && t == DoFinish(s, h, reports) && t != s
    ensures Inv(t)
  {
    assert PcOk(s, h, s.handlers[h]);
    var Walking(a, at) := s.handlers[h];
    assert Grows(s, t, h);
    CoveredGrows(s, t, h, a, at);
    QuietKeepsInv(s, t, h);
  }

  lemma {:induction false} StartKeepsInv(s: State, t: State, h: Handler, a: Account)
    requires Inv(s) && t == Next(s, Start(h, a)) && t != s
    ensures Inv(t)
  {
    QuietKeepsInv(s, t, h);
  }

  lemma {:induction false} FreshKeepsInv(s: State, t: State, h: Handler)
    requires Inv(s) && t == DoFresh(s, h) && t != s
    ensures Inv(t)
  {
    QuietKeepsInv(s, t, h);
  }

  /** A handler that leaves its walk early drops what it was about to enqueue, and nothing else. */
  ghost predicate Left(s: State, t: State, h: Handler, pc: Pc) {
    && h in s.handlers
    && t == s.(handlers := s.handlers[h := pc], dropped := s.dropped + Owed(s.handlers[h]))
    && (pc.Over? || pc.Resyncing?)
  }

  lemma {:induction false} LeftKeepsAccounts(s: State, t: State, h: Handler, pc: Pc)
    requires Inv(s) && Left(s, t, h, pc)
    ensures Counted(t)
  {
    assert PcOk(s, h, s.handlers[h]);
    forall k ensures Accounted(t, k) {
      assert Accounted(s, k);
    }
    forall k ensures At(t.isNew, k) == if k in t.stored then 1 else 0 {
      assert At(s.isNew, k) == if k in s.stored then 1 else 0;
    }
  }

  lemma {:induction false} LeftKeepsInv(s: State, t: State, h: Handler, pc: Pc)
    requires Inv(s) && Left(s, t, h, pc)
    ensures Inv(t)
  {
    LeftKeepsAccounts(s, t, h, pc);
    assert Grows(s, t, h);
    StepKeepsCoverage(s, t, h);
  }

  /** What an insert that created its row did, field by field. */
  ghost predicate Inserted(s: State, t: State, h: Handler, a: Account, at: Position, id: MessageId, sender: Sender) {
    var key := Key(a, id);
    && key !in s.stored
    && t.logs == s.logs && t.cursors == s.cursors
    && t.vanished == s.vanished && t.resets == s.resets && t.reported == s.reported
    && t.enqueued == s.enqueued && t.dropped == s.dropped
    && t.handlers == s.handlers[h := Enqueueing(a, at, id)]
    && t.stored == s.stored[key := sender]
    && t.contacts == Record(s.contacts, sender)
    && t.isNew == s.isNew[key := At(s.isNew, key) + 1]
    && t.winner == s.winner[key := h]
  }

  lemma {:induction false} InsertEffect(
      s: State, t: State, h: Handler, a: Account, at: Position, id: MessageId, sender: Sender)
    requires PcOf(s, h) == Inserting(a, at, id, sender) && Key(a, id) !in s.stored && t == DoInsert(s, h)
    ensures Inserted(s, t, h, a, at, id, sender)
  {
    hide Record;
  }

  lemma {:induction false} InsertedGrows(
      s: State, t: State, h: Handler, a: Account, at: Position, id: MessageId, sender: Sender)
    requires Inv(s) && h in s.handlers && s.handlers[h] == Inserting(a, at, id, sender)
    requires Inserted(s, t, h, a, at, id, sender)
    ensures Grows(s, t, h) && PcOk(t, h, t.handlers[h])
  {
    hide Record;
    assert PcOk(s, h, s.handlers[h]);
    HandlingGrows(s, t, h, a, at, id);
  }

  lemma {:induction false} InsertedCounts(
      s: State, t: State, h: Handler, a: Account, at: Position, id: MessageId, sender: Sender)
    requires Counted(s) && h in s.handlers && s.handlers[h] == Inserting(a, at, id, sender)
    requires Inserted(s, t, h, a, at, id, sender)
    ensures Counted(t)
  {
    hide Record;
    forall k ensures Accounted(t, k) {
      assert Accounted(s, k);
    }
    forall k ensures At(t.isNew, k) == if k in t.stored then 1 else 0 {
      assert At(s.isNew, k) == if k in s.stored then 1 else 0;
    }
  }

  lemma {:induction false} FromGrows(stored: map<Key, Sender>, key: Key, sender: Sender, address: string)
    requires key !in stored
    ensures var counts := ContactOf(sender) == Some(address);
      var before, after := From(stored, address), From(stored[key := sender], address);
      && after == (if counts then before + {key} else before)
      && |after| == |before| + (if counts then 1 else 0)
  {
    hide ContactOf;
    var before, after := From(stored, address), From(stored[key := sender], address);
    assert key !in before;
    if ContactOf(sender) == Some(address) {
      assert after == before + {key};
    } else {
      assert after == before;
    }
  }

  /** `recordInbound` in the same commit keeps every contact's count equal to the messages stored from it. */
  lemma {:induction false} RecordKeepsContacts(s: State, t: State, key: Key, sender: Sender)
    requires ContactsOk(s) && key !in s.stored
    requires t.stored == s.stored[key := sender] && t.contacts == Record(s.contacts, sender)
    ensures ContactsOk(t)
  {
    hide ContactOf;
    forall address
      ensures At(t.contacts, address) == |From(t.stored, address)|
      ensures address in t.contacts <==> From(t.stored, address) != {}
    {
      FromGrows(s.stored, key, sender, address);
      assert At(s.contacts, address) == |From(s.stored, address)|;
      assert address in s.contacts <==> From(s.stored, address) != {};
    }
  }

  lemma {:induction false} InsertedKeepsInv(
      s: State, t: State, h: Handler, a: Account, at: Position, id: MessageId, sender: Sender)
    requires Inv(s) && h in s.handlers && s.handlers[h] == Inserting(a, at, id, sender)
    requires Inserted(s, t, h, a, at, id, sender)
    ensures Inv(t)
  {
    hide Record;
    InsertedGrows(s, t, h, a, at, id, sender);
    InsertedCounts(s, t, h, a, at, id, sender);
    RecordKeepsContacts(s, t, Key(a, id), sender);
    StepKeepsCoverage(s, t, h);
  }

  lemma {:induction false} DuplicateKeepsInv(
      s: State, t: State, h: Handler, a: Account, at: Position, id: MessageId, sender: Sender)
    requires Inv(s) && h in s.handlers && s.handlers[h] == Inserting(a, at, id, sender) && Key(a, id) in s.stored
    requires t == s.(handlers := s.handlers[h := Walking(a, at + 1)])
    ensures Inv(t)
  {
    assert PcOk(s, h, s.handlers[h]);
    assert Grows(s, t, h);
    HandlingGrows(s, t, h, a, at, id);
    WalkOn(t, a, at);
    QuietKeepsInv(s, t, h);
  }

  lemma {:induction false} InsertKeepsInv(s: State, t: State, h: Handler)
    requires Inv(s) && t == DoInsert(s, h) && t != s
    ensures Inv(t)
  {
    hide Record, Inv, Inserted;
    var Inserting(a, at, id, sender) := s.handlers[h];
    if Key(a, id) in s.stored {
      DuplicateKeepsInv(s, t, h, a, at, id, sender);
    } else {
      InsertEffect(s, t, h, a, at, id, sender);
      InsertedKeepsInv(s, t, h, a, at, id, sender);
    }
  }

  lemma {:induction false} EnqueueCounts(s: State, t: State, h: Handler)
    requires Inv(s) && t == DoEnqueue(s, h) && PcOf(s, h).Enqueueing?
    ensures Counted(t)
  {
    assert PcOk(s, h, s.handlers[h]);
    forall k ensures Accounted(t, k) {
      assert Accounted(s, k);
    }
    forall k ensures At(t.isNew, k) == if k in t.stored then 1 else 0 {
      assert At(s.isNew, k) == if k in s.stored then 1 else 0;
    }
  }

  lemma {:induction false} EnqueueKeepsInv(s: State, t: State, h: Handler)
    requires Inv(s) && t == DoEnqueue(s, h) && PcOf(s, h).Enqueueing?
    ensures Inv(t)
  {
    EnqueueCounts(s, t, h);
    assert PcOk(s, h, s.handlers[h]);
    var Enqueueing(a, at, id) := s.handlers[h];
    assert Grows(s, t, h);
    HandlingGrows(s, t, h, a, at, id);
    WalkOn(t, a, at);
    StepKeepsCoverage(s, t, h);
  }

  lemma {:induction false} SetCursorCounts(s: State, t: State, h: Handler)
    requires Counted(s) && t == DoSetCursor(s, h) && PcOf(s, h).Setting?
    ensures Counted(t)
  {
    forall k ensures Accounted(t, k) {
      assert Accounted(s, k);
    }
    forall k ensures At(t.isNew, k) == if k in t.stored then 1 else 0 {
      assert At(s.isNew, k) == if k in s.stored then 1 else 0;
    }
  }

  lemma {:induction false} SetCursorKeepsInv(s: State, t: State, h: Handler)
    requires Inv(s) && t == DoSetCursor(s, h) && PcOf(s, h).Setting?
    ensures Inv(t)
  {
    SetCursorCounts(s, t, h);
    assert PcOk(s, h, s.handlers[h]);
    var Setting(a, position, reset) := s.handlers[h];
    assert Log(t, a) == Log(s, a);
    assert Grows(s, t, h);
    if reset {
      assert At(t.resets, a) >= position;
    } else {
      CoveredGrows(s, t, h, a, position);
    }
    assert CursorOk(t, a);
    StepKeepsCoverage(s, t, h);
  }

  lemma {:induction false} NextKeepsInv(s: State, e: Event)
    requires Inv(s)
    ensures Inv(Next(s, e))
  {
    hide Inv;
    var t := Next(s, e);
    if t != s {
      match e {
        case Arrive(a, change) => ArriveKeepsInv(s, t, a, change);
        case Load(h) => LoadKeepsInv(s, t, h);
        case Yield(h) => YieldKeepsInv(s, t, h);
        case Gone(h) => if PcOf(s, h).Fetching? { GoneKeepsInv(s, t, h); }
        case Got(h, sender) => if PcOf(s, h).Fetching? { GotKeepsInv(s, t, h, sender); }
        case Look(h) => LookKeepsInv(s, t, h);
        case Insert(h) => InsertKeepsInv(s, t, h);
        case Enqueue(h) => if PcOf(s, h).Enqueueing? { EnqueueKeepsInv(s, t, h); }
        case Finish(h, reports) => FinishKeepsInv(s, t, h, reports);
        case SetCursor(h) => if PcOf(s, h).Setting? { SetCursorKeepsInv(s, t, h); }
        case Start(h, a) => StartKeepsInv(s, t, h, a);
        case Fresh(h) => FreshKeepsInv(s, t, h);
        case Expire(h) => LeftKeepsInv(s, t, h, Resyncing(WalkOf(s.handlers[h]).value));
        case Die(h) => LeftKeepsInv(s, t, h, Over);
      }
    }
  }

  lemma {:induction false} RunKeepsInv(s: State, events: seq<Event>)
    requires Inv(s)
    ensures Inv(Run(s, events))
    decreases |events|
  {
    if events != [] {
      RunKeepsInv(s, events[..|events| - 1]);
      NextKeepsInv(Run(s, events[..|events| - 1]), events[|events| - 1]);
    }
  }

  ghost predicate Reachable(s: State) {
    exists events :: Run(Initial, events) == s
  }

  lemma {:induction false} ReachableInv(s: State)
    requires Reachable(s)
    ensures Inv(s)
  {
    var events :| Run(Initial, events) == s;
    RunKeepsInv(Initial, events);
  }

  lemma {:induction false} ReachableNext(s: State, e: Event)
    requires Reachable(s)
    ensures Reachable(Next(s, e))
  {
    var events :| Run(Initial, events) == s;
    assert (events + [e])[..|events|] == events;
    assert Run(Initial, events + [e]) == Next(s, e);
  }

  // ------------------------------------------------------------ no mail is skipped

  /**
   * Every message added below the stored cursor is stored, was gone when the provider
   * was asked for it, or lies below a position the account was reset to; and the cursor
   * is a position the provider reported. Crashes, races and cursors written late do not
   * change that.
   */
  lemma {:induction false} NothingBelowTheCursorIsSkipped(s: State, a: Account, i: Position, id: MessageId)
    requires Reachable(s) && a in s.cursors
    requires i < s.cursors[a] && i < |Log(s, a)| && Log(s, a)[i] == Added(id)
    ensures Key(a, id) in s.stored || Key(a, id) in s.vanished || i < At(s.resets, a)
  {
    ReachableInv(s);
    assert CursorOk(s, a);
    assert Dealt(s, a, i);
  }

  lemma {:induction false} CursorWasReported(s: State, a: Account)
    requires Reachable(s) && a in s.cursors
    ensures (a, s.cursors[a]) in s.reported && s.cursors[a] <= |Log(s, a)|
  {
    ReachableInv(s);
    assert CursorOk(s, a);
  }

  // ------------------------------------------------------------ nobody is told twice

  /**
   * Over all redeliveries and races, `persist` said `isNew` exactly once for every
   * message stored, and ingest has enqueued its analysis once, is about to (only the
   * handler that was told so), or has dropped it by failing in between: exactly one of
   * the three. So never twice, and not always once.
   */
  lemma {:induction false} NewOnceAndEnqueuedOnceUnlessDropped(s: State, key: Key)
    requires Reachable(s)
    ensures At(s.isNew, key) == (if key in s.stored then 1 else 0)
    ensures At(s.enqueued, key) <= 1 && (At(s.enqueued, key) == 1 ==> key in s.stored)
    ensures key in s.stored ==> key in s.winner
    ensures key in s.stored ==>
              (At(s.enqueued, key) == 0 <==> key in s.dropped || key in Owed(PcOf(s, s.winner[key])))
    ensures key in s.dropped ==> At(s.enqueued, key) == 0
  {
    ReachableInv(s);
    assert Accounted(s, key);
  }

  lemma {:induction false} WalkingDropsNothing(s: State, e: Event)
    requires e.Load? || e.Yield? || e.Gone? || e.Got? || e.Look?
    ensures Next(s, e).dropped == s.dropped
  {
    hide Record, At;
  }

  lemma {:induction false} StoringDropsNothing(s: State, h: Handler)
    ensures DoInsert(s, h).dropped == s.dropped && DoEnqueue(s, h).dropped == s.dropped
  {
    hide Record, At;
  }

  lemma {:induction false} EndingDropsNothing(s: State, h: Handler, reports: bool)
    ensures DoFinish(s, h, reports).dropped == s.dropped && DoFresh(s, h).dropped == s.dropped
    ensures DoSetCursor(s, h).dropped == s.dropped
  {
    hide At, Higher, Log;
  }

  lemma {:induction false} StepKeepsDropped(s: State, e: Event, t: State, key: Key)
    requires key in s.dropped && t == Next(s, e)
    ensures key in t.dropped
  {
    if e.Load? || e.Yield? || e.Gone? || e.Got? || e.Look? {
      WalkingDropsNothing(s, e);
    } else if e.Insert? || e.Enqueue? {
      StoringDropsNothing(s, e.h);
    } else if e.Finish? || e.Fresh? || e.SetCursor? {
      EndingDropsNothing(s, e.h, e.Finish? && e.reports);
    }
  }

  /** A message once dropped is never notified, however often it is redelivered or re-walked. */
  lemma {:induction false} DroppedForever(s: State, events: seq<Event>, key: Key)
    requires Reachable(s) && key in s.dropped
    ensures Reachable(Run(s, events)) && key in Run(s, events).dropped && At(Run(s, events).enqueued, key) == 0
    decreases |events|
  {
    if events != [] {
      var before := events[..|events| - 1];
      DroppedForever(s, before, key);
      ReachableNext(Run(s, before), events[|events| - 1]);
      StepKeepsDropped(Run(s, before), events[|events| - 1], Run(s, events), key);
    }
    NewOnceAndEnqueuedOnceUnlessDropped(Run(s, events), key);
  }

  lemma {:induction false} LeavingDropsWhatIsOwed(s: State, h: Handler)
    ensures DoDie(s, h).dropped == s.dropped + Owed(PcOf(s, h)) == DoExpire(s, h).dropped
  {
  }

  /** A message is dropped exactly when the handler that has just stored it fails or dies. */
  lemma {:induction false} DroppedExactly(s: State, e: Event, key: Key)
    requires key !in s.dropped
    ensures key in Next(s, e).dropped <==> (e.Die? || e.Expire?) && key in Owed(PcOf(s, e.h))
  {
    hide DoLoad, DoYield, DoGone, DoGot, DoLook, DoInsert, DoEnqueue, DoFinish, DoFresh, DoSetCursor, DoExpire, DoDie,
      PcOf, Owed, Log;
    match e
    case Arrive(_, _) =>
    case Start(_, _) =>
    case Insert(h) => StoringDropsNothing(s, h);
    case Enqueue(h) => StoringDropsNothing(s, h);
    case Finish(h, reports) => EndingDropsNothing(s, h, reports);
    case Fresh(h) => EndingDropsNothing(s, h, false);
    case SetCursor(h) => EndingDropsNothing(s, h, false);
    case Die(h) => LeavingDropsWhatIsOwed(s, h);
    case Expire(h) => LeavingDropsWhatIsOwed(s, h);
    case _ => WalkingDropsNothing(s, e);
  }

  /** A handler that asks for the mailbox's position stores its end, if nothing arrives before it does. */
  lemma {:induction false} FreshCursorIsTheEnd(s: State, h: Handler, a: Account)
    requires PcOf(s, h) == Initialising(a) || PcOf(s, h) == Resyncing(a)
    ensures var t := DoSetCursor(DoFresh(s, h), h);
            PcOf(t, h) == Over && t.cursors == s.cursors[a := |Log(s, a)|] && t.logs == s.logs
  {
    hide Higher, At;
    assert DoFresh(s, h) == FreshPosition(s, h, a);
  }

  /** The contact of a sender is the address trimmed and in lower case, of any that has an `@`. */
  lemma {:induction false} ContactIs(sender: Sender, address: string)
    ensures ContactOf(sender) == Some(address)
       <==> '@' in sender.address && address == Text.Lower(Text.Trim(sender.address))
  {
    var typed, who := sender.address, Normalized(sender.address);
    assert forall c :: Text.LowerChar(c) == '@' <==> c == '@';
    var before, after := Text.TrimSplits(typed);
    assert !Text.IsSpace('@');
    hide Text.Trim, Text.IsSpace, Text.LowerChar;
    if '@' in typed {
      assert '@' in Text.Trim(typed);
      var i :| 0 <= i < |who| && Text.Trim(typed)[i] == '@';
      assert who[i] == '@';
    }
    if '@' in who {
      var i :| 0 <= i < |who| && who[i] == '@';
      assert Text.Trim(typed)[i] in typed;
    }
  }

  predicate IsFrom(sender: Sender, address: string) {
    '@' in sender.address && Text.Lower(Text.Trim(sender.address)) == address
  }

  /**
   * The address book names exactly the trimmed lower-case addresses, of those with an `@`, from
   * which mail is stored, each with the number of its stored messages.
   */
  lemma {:induction false} ContactsCountStoredMail(s: State, address: string)
    requires Reachable(s)
    ensures address in s.contacts <==> exists k <- s.stored :: IsFrom(s.stored[k], address)
    ensures At(s.contacts, address) == |set k | k in s.stored && IsFrom(s.stored[k], address)|
  {
    ReachableInv(s);
    hide Reachable, ContactOf, IsFrom;
    assert address in s.contacts <==> From(s.stored, address) != {};
    forall k <- s.stored ensures ContactOf(s.stored[k]) == Some(address) <==> IsFrom(s.stored[k], address) {
      FromIs(s.stored[k], address);
    }
    assert From(s.stored, address) == set k | k in s.stored && IsFrom(s.stored[k], address);
    if k :| k in s.stored && IsFrom(s.stored[k], address) {
      assert k in From(s.stored, address);
    }
  }

  lemma FromIs(sender: Sender, address: string)
    ensures ContactOf(sender) == Some(address) <==> IsFrom(sender, address)
  {
    ContactIs(sender, address);
  }

  /** Case and outer white space do not make another contact. */
  lemma {:induction false} SpellingsShareAContact(typed: string, other: string, before: string, after: string)
    requires Text.IsAllSpace(before) && Text.IsAllSpace(after) && Text.Lower(typed) == Text.Lower(other)
    ensures ContactOf(Sender(before + typed + after)) == ContactOf(Sender(other))
  {
    Text.TrimIgnoresOuterSpace(before, typed, after);
    Text.LowerTrim(typed);
    Text.LowerTrim(other);
  }

  // ------------------------------------------------------------ a handler left alone

  /** One turn of the loop in which nothing fails; the steps that do not apply change nothing. */
  function OneTurn(s: State, h: Handler, sender: Sender): State {
    DoEnqueue(DoInsert(DoLook(DoGot(DoYield(s, h), h, sender), h), h), h)
  }

  function AllTurns(s: State, h: Handler, senders: seq<Sender>): State {
    if senders == [] then s else OneTurn(AllTurns(s, h, senders[..|senders| - 1]), h, senders[|senders| - 1])
  }

  /** A whole handler, from its start to its cursor. */
  function Complete(s: State, h: Handler, a: Account, senders: seq<Sender>): State {
    DoSetCursor(DoFinish(AllTurns(DoLoad(Next(s, Start(h, a)), h), h, senders), h, true), h)
  }

  /** From `s` to `t` each message newly stored is enqueued once; mailboxes, cursors and losses are as before. */
  ghost predicate Advances(s: State, t: State) {
    && t.logs == s.logs && t.cursors == s.cursors && t.dropped == s.dropped
    && s.stored.Keys <= t.stored.Keys
    && forall k :: At(t.enqueued, k) == At(s.enqueued, k) + if k in t.stored && k !in s.stored then 1 else 0
  }

  lemma {:induction false} AdvancesIsTransitive(s: State, t: State, u: State)
    requires Advances(s, t) && Advances(t, u)
    ensures Advances(s, u)
  {
  }

  lemma {:induction false} WalkingRests(s: State, h: Handler, sender: Sender)
    requires PcOf(s, h).Walking?
    ensures DoGot(s, h, sender) == DoLook(s, h) == DoInsert(s, h) == DoEnqueue(s, h) == s
  {
  }

  lemma {:induction false} Yielded(s: State, h: Handler, a: Account, at: Position)
    requires PcOf(s, h) == Walking(a, at) && at < |Log(s, a)|
    ensures var t, change := DoYield(s, h), Log(s, a)[at];
            && t == s.(handlers := t.handlers)
            && PcOf(t, h) == if change.Added? then Fetching(a, at, change.id) else Walking(a, at + 1)
  {
  }

  lemma {:induction false} Gotten(s: State, h: Handler, a: Account, at: Position, id: MessageId, sender: Sender)
    requires PcOf(s, h) == Fetching(a, at, id)
    ensures var t := DoGot(s, h, sender); t == s.(handlers := t.handlers) && PcOf(t, h) == Looking(a, at, id, sender)
  {
  }

  lemma {:induction false} Looked(s: State, h: Handler, a: Account, at: Position, id: MessageId, sender: Sender)
    requires PcOf(s, h) == Looking(a, at, id, sender)
    ensures var t := DoLook(s, h);
            && t == s.(handlers := t.handlers)
            && PcOf(t, h) == if Key(a, id) in s.stored then Walking(a, at + 1) else Inserting(a, at, id, sender)
  {
  }

  lemma {:induction false} StoredAndAnnounced(
      s: State, h: Handler, a: Account, at: Position, id: MessageId, sender: Sender)
    requires PcOf(s, h) == Inserting(a, at, id, sender) && Key(a, id) !in s.stored
    ensures var t := DoEnqueue(DoInsert(s, h), h);
            && Advances(s, t) && PcOf(t, h) == Walking(a, at + 1) && Key(a, id) in t.stored
  {
    hide Record;
    var u := DoInsert(s, h);
    assert u.enqueued == s.enqueued && u.stored == s.stored[Key(a, id) := sender];
  }

  lemma {:induction false} OnlyMoved(s: State, t: State)
    requires t == s.(handlers := t.handlers)
    ensures Advances(s, t)
  {
  }

  lemma {:induction false} TurnAdvances(s: State, h: Handler, a: Account, at: Position, sender: Sender)
    requires PcOf(s, h) == Walking(a, at) && at < |Log(s, a)|
    ensures var t, change := OneTurn(s, h, sender), Log(s, a)[at];
            && Advances(s, t) && PcOf(t, h) == Walking(a, at + 1)
            && (change.Added? ==> Key(a, change.id) in t.stored)
  {
    hide PcOf, Advances, Log, DoYield, DoGot, DoLook, DoInsert, DoEnqueue;
    Yielded(s, h, a, at);
    var y := DoYield(s, h);
    var change := Log(s, a)[at];
    if !change.Added? {
      WalkingRests(y, h, sender);
      OnlyMoved(s, y);
    } else {
      Gotten(y, h, a, at, change.id, sender);
      var g := DoGot(y, h, sender);
      Looked(g, h, a, at, change.id, sender);
      var l := DoLook(g, h);
      OnlyMoved(s, l);
      if Key(a, change.id) in s.stored {
        WalkingRests(l, h, sender);
      } else {
        StoredAndAnnounced(l, h, a, at, change.id, sender);
        AdvancesIsTransitive(s, l, OneTurn(s, h, sender));
      }
    }
  }

  /** The messages added between the two positions are stored. */
  ghost predicate AreStored(s: State, a: Account, from: Position, to: Position) {
    && from <= to && (from < to ==> to <= |Log(s, a)|)
    && forall i :: from <= i < to && Log(s, a)[i].Added? ==> Key(a, Log(s, a)[i].id) in s.stored
  }

  lemma {:induction false} OneMoreDealt(s: State, t: State, u: State, a: Account, from: Position, at: Position)
    requires Advances(s, t) && Advances(t, u) && AreStored(t, a, from, at) && at < |Log(s, a)|
    requires Log(s, a)[at].Added? ==> Key(a, Log(s, a)[at].id) in u.stored
    ensures AreStored(u, a, from, at + 1)
  {
    assert Log(s, a) == Log(t, a) == Log(u, a);
  }

  lemma {:induction false} TurnsAdvance(s: State, h: Handler, a: Account, from: Position, senders: seq<Sender>)
    requires PcOf(s, h) == Walking(a, from) && from + |senders| <= |Log(s, a)|
    ensures var t, to := AllTurns(s, h, senders), from + |senders|;
            Advances(s, t) && PcOf(t, h) == Walking(a, to) && AreStored(t, a, from, to)
    decreases |senders|
  {
    hide PcOf, Advances, AreStored, Log, OneTurn;
    if senders == [] {
      OnlyMoved(s, s);
      NoneToStore(s, a, from);
    } else {
      var n, t := |senders| - 1, AllTurns(s, h, senders[..|senders| - 1]);
      TurnsAdvance(s, h, a, from, senders[..n]);
      SameLog(s, t, a);
      TurnAdvances(t, h, a, from + n, senders[n]);
      AdvancesIsTransitive(s, t, AllTurns(s, h, senders));
      OneMoreDealt(s, t, AllTurns(s, h, senders), a, from, from + n);
    }
  }

  lemma {:induction false} NoneToStore(s: State, a: Account, from: Position)
    ensures AreStored(s, a, from, from)
  {
  }

  lemma {:induction false} SameLog(s: State, t: State, a: Account)
    requires Advances(s, t)
    ensures Log(t, a) == Log(s, a)
  {
  }

  lemma {:induction false} Begun(s: State, h: Handler, a: Account)
    requires h !in s.handlers && a in s.cursors
    ensures var t := DoLoad(Next(s, Start(h, a)), h);
            t == s.(handlers := t.handlers) && PcOf(t, h) == Walking(a, s.cursors[a])
  {
  }

  lemma {:induction false} Finished(s: State, h: Handler, a: Account, at: Position)
    requires PcOf(s, h) == Walking(a, at)
    ensures var t := DoSetCursor(DoFinish(s, h, true), h);
            && t == s.(handlers := t.handlers, reported := t.reported, cursors := s.cursors[a := at])
            && PcOf(t, h) == Over
  {
    hide At, Higher;
    var u := DoFinish(s, h, true);
    assert u == s.(handlers := u.handlers, reported := u.reported) && PcOf(u, h) == Setting(a, at, false);
  }

  /**
   * Left alone, with nothing failing, a handler stores every message added from the cursor
   * on, enqueues the analysis of each one that is new exactly once, drops none, and leaves
   * the cursor at the end of the mailbox.
   */
  lemma {:induction false} UndisturbedHandlerStoresEverything(s: State, h: Handler, a: Account, senders: seq<Sender>)
    requires h !in s.handlers && a in s.cursors && s.cursors[a] + |senders| == |Log(s, a)|
    ensures var t := Complete(s, h, a, senders);
            && PcOf(t, h) == Over && t.cursors == s.cursors[a := |Log(s, a)|]
            && AreStored(t, a, s.cursors[a], |Log(s, a)|) && Advances(s, t.(cursors := s.cursors))
  {
    hide PcOf, Advances, AreStored, DoLoad, DoFinish, DoSetCursor, Next, AllTurns, Log;
    var from := s.cursors[a];
    Begun(s, h, a);
    var b := DoLoad(Next(s, Start(h, a)), h);
    OnlyMoved(s, b);
    SameLog(s, b, a);
    TurnsAdvance(b, h, a, from, senders);
    var t := AllTurns(b, h, senders);
    AdvancesIsTransitive(s, b, t);
    Finished(t, h, a, from + |senders|);
    CursorAside(s, t, Complete(s, h, a, senders), a, from, from + |senders|);
  }

  lemma {:induction false} CursorAside(s: State, t: State, u: State, a: Account, from: Position, to: Position)
    requires Advances(s, t) && AreStored(t, a, from, to)
    requires u == t.(handlers := u.handlers, reported := u.reported, cursors := t.cursors[a := to])
    ensures AreStored(u, a, from, to) && Advances(s, u.(cursors := s.cursors)) && u.cursors == s.cursors[a := to]
  {
    assert Log(u, a) == Log(t, a);
  }

  lemma {:induction false} TurnsAreReachable(s: State, h: Handler, senders: seq<Sender>)
    requires Reachable(s)
    ensures Reachable(AllTurns(s, h, senders))
    decreases |senders|
  {
    hide Reachable, DoYield, DoGot, DoLook, DoInsert, DoEnqueue;
    if senders != [] {
      var n := |senders| - 1;
      var t := AllTurns(s, h, senders[..n]);
      TurnsAreReachable(s, h, senders[..n]);
      ReachableNext(t, Yield(h));
      ReachableNext(DoYield(t, h), Got(h, senders[n]));
      ReachableNext(DoGot(DoYield(t, h), h, senders[n]), Look(h));
      ReachableNext(DoLook(DoGot(DoYield(t, h), h, senders[n]), h), Insert(h));
      ReachableNext(DoInsert(DoLook(DoGot(DoYield(t, h), h, senders[n]), h), h), Enqueue(h));
    }
  }

  /** And it is one of the machine's runs. */
  lemma {:induction false} CompleteIsReachable(s: State, h: Handler, a: Account, senders: seq<Sender>)
    requires Reachable(s)
    ensures Reachable(Complete(s, h, a, senders))
  {
    hide Reachable, AllTurns, DoLoad, DoFinish, DoSetCursor;
    ReachableNext(s, Start(h, a));
    ReachableNext(Next(s, Start(h, a)), Load(h));
    var b := DoLoad(Next(s, Start(h, a)), h);
    TurnsAreReachable(b, h, senders);
    ReachableNext(AllTurns(b, h, senders), Finish(h, true));
    ReachableNext(DoFinish(AllTurns(b, h, senders), h, true), SetCursor(h));
  }

  // ------------------------------------------------------------ how mail is dropped

  /** A mailbox that a first handler is about to give its cursor. */
  lemma {:induction false} AMailboxAtItsStart() returns (s: State)
    ensures Reachable(s) && s.handlers == map[0 := Setting(0, 0, true)]
    ensures s.cursors == map[] && s.logs == map[] && s.stored == map[]
  {
    hide DoYield, DoGone, DoGot, DoLook, DoInsert, DoEnqueue, DoFinish, DoExpire, DoDie, DoSetCursor, At, Higher;
    assert Run(Initial, []) == Initial;
    ReachableNext(Initial, Start(0, 0));
    s := Next(Initial, Start(0, 0));
    assert s == Initial.(handlers := map[0 := Starting(0)]);
    ReachableNext(s, Load(0)); s := Next(s, Load(0));
    assert s == Initial.(handlers := map[0 := Initialising(0)]);
    ReachableNext(s, Fresh(0)); s := Next(s, Fresh(0));
  }

  /** A mailbox with its cursor stored, and then a new message. */
  lemma {:induction false} AMailbox(id: MessageId) returns (s: State)
    ensures Reachable(s) && s.cursors == map[0 := 0] && s.logs == map[0 := [Added(id)]] && s.handlers == map[0 := Over]
    ensures s.stored == map[]
  {
    hide Reachable, Run, DoLoad, DoYield, DoGone, DoGot, DoLook, DoInsert, DoEnqueue, DoFinish, DoExpire, DoDie,
      DoFresh;
    s := AMailboxAtItsStart();
    ReachableNext(s, SetCursor(0)); s := Next(s, SetCursor(0));
    ReachableNext(s, Arrive(0, Added(id))); s := Next(s, Arrive(0, Added(id)));
    assert [] + [Added(id)] == [Added(id)];
  }

  lemma {:induction false} InsertStores(s: State, h: Handler, a: Account, at: Position, id: MessageId, sender: Sender)
    requires PcOf(s, h) == Inserting(a, at, id, sender) && Key(a, id) !in s.stored
    ensures PcOf(DoInsert(s, h), h) == Enqueueing(a, at, id) && Key(a, id) in DoInsert(s, h).stored
  {
    hide Record, At;
  }

  /** A handler that has just been told of the message. */
  lemma {:induction false} AMessageYielded(id: MessageId) returns (s: State)
    ensures Reachable(s) && PcOf(s, 1) == Fetching(0, 0, id) && s.stored == map[]
  {
    hide Reachable, Run, PcOf, DoLoad, DoYield, DoGone, DoGot, DoLook, DoInsert, DoEnqueue, DoFinish, DoExpire, DoDie,
      DoFresh, DoSetCursor;
    s := AMailbox(id);
    Begun(s, 1, 0);
    ReachableNext(s, Start(1, 0)); s := Next(s, Start(1, 0));
    ReachableNext(s, Load(1)); s := Next(s, Load(1));
    Yielded(s, 1, 0, 0);
    ReachableNext(s, Yield(1)); s := Next(s, Yield(1));
  }

  /** A handler that has stored it and not yet enqueued its analysis. */
  lemma {:induction false} AnUnannouncedMessage(id: MessageId, sender: Sender) returns (s: State)
    ensures Reachable(s) && PcOf(s, 1) == Enqueueing(0, 0, id) && Key(0, id) in s.stored
  {
    hide Reachable, Run, PcOf, DoLoad, DoYield, DoGone, DoGot, DoLook, DoInsert, DoEnqueue, DoFinish, DoExpire, DoDie,
      DoFresh, DoSetCursor, Log;
    s := AMessageYielded(id);
    Gotten(s, 1, 0, 0, id, sender);
    ReachableNext(s, Got(1, sender)); s := Next(s, Got(1, sender));
    Looked(s, 1, 0, 0, id, sender);
    ReachableNext(s, Look(1)); s := Next(s, Look(1));
    InsertStores(s, 1, 0, 0, id, sender);
    ReachableNext(s, Insert(1)); s := Next(s, Insert(1));
  }

  /** So mail is lost to the user's notifications by a crash, and by a failure that makes the handler start over. */
  lemma {:induction false} CrashOrResyncDrops(id: MessageId, sender: Sender, resync: bool) returns (s: State)
    ensures Reachable(s) && Key(0, id) in s.stored && Key(0, id) in s.dropped && At(s.enqueued, Key(0, id)) == 0
    ensures PcOf(s, 1) == if resync then Resyncing(0) else Over
  {
    hide Reachable, Run, Record, At;
    s := AnUnannouncedMessage(id, sender);
    var e := if resync then Expire(1) else Die(1);
    ReachableNext(s, e);
    s := Next(s, e);
    NewOnceAndEnqueuedOnceUnlessDropped(s, Key(0, id));
  }
}
