/**
 * `IngestProcessor.handle` over the user's tables.
 *
 * Every statement that commits or asks the provider is one method below, with the
 * branches of the program; `Handle` strings them together, with all other handlers and
 * arriving mail free to run at each `await`. What the provider answers and which calls
 * throw are inputs.
 */
module IngestProcessor {
  import opened Basics
  import opened Ingest

  predicate IsBy(e: Event, h: Handler) {
    !e.Arrive? && e.h == h
  }

  lemma {:induction false} FetchesLeaveOthers(s: State, e: Event, h: Handler)
    requires e.Load? || e.Yield? || e.Gone? || e.Got?
    requires e.h != h
    ensures PcOf(Next(s, e), h) == PcOf(s, h)
  {
  }

  lemma {:induction false} LookLeavesOthers(s: State, g: Handler, h: Handler)
    requires g != h
    ensures PcOf(DoLook(s, g), h) == PcOf(s, h)
  {
  }

  lemma {:induction false} FinishLeavesOthers(s: State, g: Handler, h: Handler, reports: bool)
    requires g != h
    ensures PcOf(DoFinish(s, g, reports), h) == PcOf(s, h)
  {
  }

  lemma {:induction false} EnqueueLeavesOthers(s: State, g: Handler, h: Handler)
    requires g != h
    ensures PcOf(DoEnqueue(s, g), h) == PcOf(s, h)
  {
    hide At;
  }

  lemma {:induction false} InsertLeavesOthers(s: State, g: Handler, h: Handler)
    requires g != h
    ensures PcOf(DoInsert(s, g), h) == PcOf(s, h)
  {
    hide Record, At;
  }

  lemma {:induction false} EndsLeaveOthers(s: State, e: Event, h: Handler)
    requires e.Expire? || e.Fresh? || e.SetCursor? || e.Die?
    requires e.h != h
    ensures PcOf(Next(s, e), h) == PcOf(s, h)
  {
  }

  lemma {:induction false} OtherLeavesHandler(s: State, e: Event, h: Handler)
    requires !IsBy(e, h)
    ensures PcOf(Next(s, e), h) == PcOf(s, h)
  {
    if e.Load? || e.Yield? || e.Gone? || e.Got? {
      FetchesLeaveOthers(s, e, h);
    } else if e.Look? {
      LookLeavesOthers(s, e.h, h);
    } else if e.Finish? {
      FinishLeavesOthers(s, e.h, h, e.reports);
    } else if e.Enqueue? {
      EnqueueLeavesOthers(s, e.h, h);
    } else if e.Insert? {
      InsertLeavesOthers(s, e.h, h);
    } else if e.Expire? || e.Fresh? || e.SetCursor? || e.Die? {
      EndsLeaveOthers(s, e, h);
    }
  }

  lemma {:induction false} OthersLeaveHandler(s: State, events: seq<Event>, h: Handler)
    requires forall e <- events :: !IsBy(e, h)
    ensures PcOf(Run(s, events), h) == PcOf(s, h)
    decreases |events|
  {
    if events != [] {
      OthersLeaveHandler(s, events[..|events| - 1], h);
      OtherLeavesHandler(Run(s, events[..|events| - 1]), events[|events| - 1], h);
    }
  }

  /** What one handler did, in order. */
  function Own(events: seq<Event>, h: Handler): seq<Event>
    decreases |events|
  {
    if events == [] then []
    else
      var last := events[|events| - 1];
      Own(events[..|events| - 1], h) + (if IsBy(last, h) then [last] else [])
  }

  lemma {:induction false} OthersAppend(s: State, xs: seq<Event>, ys: seq<Event>, h: Handler)
    requires forall e <- ys :: !IsBy(e, h)
    ensures Run(s, xs + ys) == Run(Run(s, xs), ys)
    ensures Own(xs + ys, h) == Own(xs, h)
    decreases |ys|
  {
    if ys == [] {
      assert xs + ys == xs;
    } else {
      var zs := ys[..|ys| - 1];
      assert (xs + ys)[..|xs + ys| - 1] == xs + zs;
      OthersAppend(s, xs, zs, h);
    }
  }

  lemma {:induction false} RunExtend(s: State, events: seq<Event>, e: Event, h: Handler)
    ensures Run(s, events + [e]) == Next(Run(s, events), e)
    ensures Own(events + [e], h) == Own(events, h) + (if IsBy(e, h) then [e] else [])
  {
    assert (events + [e])[..|events|] == events;
  }

  // ------------------------------------------------------------ what no step takes back

  /** Mailboxes only grow, and neither cursors, messages nor the knowledge that one is gone are forgotten. */
  ghost predicate Kept(s: State, t: State) {
    && (forall a :: Log(s, a) <= Log(t, a))
    && s.cursors.Keys <= t.cursors.Keys && s.stored.Keys <= t.stored.Keys && s.vanished <= t.vanished
  }

  lemma {:induction false} SameLogsKeep(s: State, t: State)
    requires t.logs == s.logs
    requires s.cursors.Keys <= t.cursors.Keys && s.stored.Keys <= t.stored.Keys && s.vanished <= t.vanished
    ensures Kept(s, t)
  {
  }

  lemma {:induction false} SameTablesKeep(s: State, t: State)
    requires t.logs == s.logs && t.cursors == s.cursors && t.stored == s.stored && t.vanished == s.vanished
    ensures Kept(s, t)
  {
  }

  lemma {:induction false} MoreVanishedKeep(s: State, t: State)
    requires Kept(s, t.(vanished := s.vanished)) && s.vanished <= t.vanished
    ensures Kept(s, t)
  {
    assert forall a :: Log(t, a) == Log(t.(vanished := s.vanished), a);
  }

  lemma {:induction false} ArrivalKeeps(s: State, a: Account, change: Change)
    ensures Kept(s, Next(s, Arrive(a, change)))
  {
    forall b ensures Log(s, b) <= Log(Next(s, Arrive(a, change)), b) {
    }
  }

  lemma {:induction false} LoadKeeps(s: State, h: Handler)
    ensures Kept(s, DoLoad(s, h))
  {
    hide Kept;
    SameTablesKeep(s, DoLoad(s, h));
  }

  lemma {:induction false} YieldKeeps(s: State, h: Handler)
    ensures Kept(s, DoYield(s, h))
  {
    hide Kept, Log;
    SameTablesKeep(s, DoYield(s, h));
  }

  lemma {:induction false} GoneKeeps(s: State, h: Handler)
    ensures Kept(s, DoGone(s, h))
  {
    hide Kept;
    var t := DoGone(s, h);
    SameTablesKeep(s, t.(vanished := s.vanished));
    assert s.vanished <= t.vanished;
    MoreVanishedKeep(s, t);
  }

  lemma {:induction false} GotKeeps(s: State, h: Handler, sender: Sender)
    ensures Kept(s, DoGot(s, h, sender))
  {
    hide Kept;
    SameTablesKeep(s, DoGot(s, h, sender));
  }

  lemma {:induction false} LookKeeps(s: State, h: Handler)
    ensures Kept(s, DoLook(s, h))
  {
    hide Kept;
    SameTablesKeep(s, DoLook(s, h));
  }

  lemma {:induction false} InsertKeeps(s: State, h: Handler)
    ensures Kept(s, DoInsert(s, h))
  {
    hide Kept, Record, At;
    SameLogsKeep(s, DoInsert(s, h));
  }

  lemma {:induction false} EnqueueKeeps(s: State, h: Handler)
    ensures Kept(s, DoEnqueue(s, h))
  {
    hide Kept, At;
    SameTablesKeep(s, DoEnqueue(s, h));
  }

  lemma {:induction false} FinishKeeps(s: State, h: Handler, reports: bool)
    ensures Kept(s, DoFinish(s, h, reports))
  {
    hide Kept;
    SameTablesKeep(s, DoFinish(s, h, reports));
  }

  lemma {:induction false} FreshKeeps(s: State, h: Handler)
    ensures Kept(s, DoFresh(s, h))
  {
    hide Kept, Log;
    SameTablesKeep(s, DoFresh(s, h));
  }

  lemma {:induction false} SetCursorKeeps(s: State, h: Handler)
    ensures Kept(s, DoSetCursor(s, h))
  {
    hide Kept, At, Higher;
    SameLogsKeep(s, DoSetCursor(s, h));
  }

  lemma {:induction false} ExpireKeeps(s: State, h: Handler)
    ensures Kept(s, DoExpire(s, h))
  {
    hide Kept, Owed;
    SameTablesKeep(s, DoExpire(s, h));
  }

  lemma {:induction false} DieKeeps(s: State, h: Handler)
    ensures Kept(s, DoDie(s, h))
  {
    hide Kept, Owed;
    SameTablesKeep(s, DoDie(s, h));
  }

  lemma {:induction false} NextKeeps(s: State, e: Event)
    ensures Kept(s, Next(s, e))
  {
    hide Kept, DoLoad, DoYield, DoGone, DoGot, DoLook, DoInsert, DoEnqueue, DoFinish, DoFresh, DoSetCursor, DoExpire,
      DoDie;
    match e
    case Arrive(a, change) => ArrivalKeeps(s, a, change);
    case Start(_, _) => SameLogsKeep(s, Next(s, e));
    case Load(h) => LoadKeeps(s, h);
    case Yield(h) => YieldKeeps(s, h);
    case Gone(h) => GoneKeeps(s, h);
    case Got(h, sender) => GotKeeps(s, h, sender);
    case Look(h) => LookKeeps(s, h);
    case Insert(h) => InsertKeeps(s, h);
    case Enqueue(h) => EnqueueKeeps(s, h);
    case Finish(h, reports) => FinishKeeps(s, h, reports);
    case Expire(h) => ExpireKeeps(s, h);
    case Fresh(h) => FreshKeeps(s, h);
    case SetCursor(h) => SetCursorKeeps(s, h);
    case Die(h) => DieKeeps(s, h);
  }

  lemma {:induction false} KeptIsTransitive(s: State, t: State, u: State)
    requires Kept(s, t) && Kept(t, u)
    ensures Kept(s, u)
  {
    forall a ensures Log(s, a) <= Log(u, a) {
      assert Log(s, a) <= Log(t, a) <= Log(u, a);
    }
  }

  lemma {:induction false} StepKeeps(s: State, t: State, e: Event)
    requires Kept(s, t)
    ensures Kept(s, Next(t, e))
  {
    hide Kept, Next;
    NextKeeps(t, e);
    KeptIsTransitive(s, t, Next(t, e));
  }

  lemma {:induction false} CursorsStay(s: State, t: State, a: Account)
    requires Kept(s, t)
    ensures a in s.cursors ==> a in t.cursors
  {
  }

  lemma {:induction false} StillStored(s: State, t: State, key: Key)
    requires Kept(s, t) && key in s.stored
    ensures key in t.stored
  {
  }

  lemma {:induction false} NothingLost(s: State)
    ensures Kept(s, s)
  {
  }

  lemma {:induction false} RunKeeps(s: State, events: seq<Event>)
    ensures Kept(s, Run(s, events))
    decreases |events|
  {
    hide Kept, Next;
    if events == [] {
      NothingLost(s);
    } else {
      var before := Run(s, events[..|events| - 1]);
      RunKeeps(s, events[..|events| - 1]);
      NextKeeps(before, events[|events| - 1]);
      KeptIsTransitive(s, before, Run(s, events));
    }
  }

  // ------------------------------------------------------------ what the world answers

  /** Where in one turn of the loop something throws. */
  datatype Call = Generator | Fetch | FindRow | CreateRow | Queue

  /** One turn: the call that throws, if any, whether its error reads as an expired history, and the fetched sender. */
  datatype Turn = Turn(throws: Option<Call>, expired: bool, reply: Option<Sender>)

  /** The provider's pages, whether it reports a position at their end, and the failures outside the loop. */
  datatype World = World(turns: seq<Turn>, reports: bool, positionThrows: bool, cursorThrows: bool)

  predicate IsSmooth(w: World) {
    !w.positionThrows && !w.cursorThrows && forall i :: 0 <= i < |w.turns| ==> w.turns[i].throws.None?
  }

  predicate HasExpired(w: World) {
    exists i :: 0 <= i < |w.turns| && w.turns[i].throws.Some? && w.turns[i].expired
  }

  /** Every message asked for is still there. */
  predicate HasAll(turns: seq<Turn>) {
    forall i :: 0 <= i < |turns| ==> turns[i].reply.Some?
  }

  /** How a handler ends, with the position it stored. */
  datatype Exit =
    | Initialised(position: Position)
    | Advanced(position: Position)
    | Unadvanced
    | Resynced(position: Position)
    | Threw

  /** The last things it does then. */
  function Ending(h: Handler, exit: Exit): seq<Event> {
    match exit
    case Initialised(_) => [Load(h), Fresh(h), SetCursor(h)]
    case Advanced(_) => [Finish(h, true), SetCursor(h)]
    case Unadvanced => [Finish(h, false)]
    case Resynced(_) => [Expire(h), Fresh(h), SetCursor(h)]
    case Threw => [Die(h)]
  }

  predicate EndsWith(own: seq<Event>, ending: seq<Event>) {
    |ending| <= |own| && own[|own| - |ending|..] == ending
  }

  predicate HasStored(cursors: map<Account, Position>, a: Account, exit: Exit) {
    exit.Initialised? || exit.Advanced? || exit.Resynced? ==> a in cursors && cursors[a] == exit.position
  }

  lemma {:induction false} StoredStays(s: State, t: State, a: Account, from: Position, to: Position)
    requires Kept(s, t) && AreStored(s, a, from, to)
    ensures AreStored(t, a, from, to)
  {
    assert Log(s, a) <= Log(t, a);
  }

  lemma {:induction false} StoredNone(s: State, a: Account, from: Position)
    ensures AreStored(s, a, from, from)
  {
  }

  lemma {:induction false} LogsGrow(s: State, t: State, a: Account)
    requires Kept(s, t)
    ensures |Log(s, a)| <= |Log(t, a)|
  {
    assert Log(s, a) <= Log(t, a);
  }

  lemma {:induction false} StoredOn(s: State, t: State, a: Account, from: Position, at: Position, took: bool)
    requires Kept(s, t) && AreStored(s, a, from, at) && (took ==> AreStored(t, a, at, at + 1))
    ensures AreStored(t, a, from, if took then at + 1 else at)
  {
    StoredStays(s, t, a, from, at);
  }

  lemma {:induction false} OneMoreStored(s: State, t: State, a: Account, from: Position, at: Position)
    requires Kept(s, t) && AreStored(s, a, from, at) && at < |Log(s, a)|
    requires Log(s, a)[at].Added? ==> Key(a, Log(s, a)[at].id) in t.stored
    ensures AreStored(t, a, from, at + 1)
  {
    assert Log(s, a) <= Log(t, a);
    StoredStays(s, t, a, from, at);
  }

  lemma {:induction false} InsertIs(
      s: State, t: State, h: Handler, a: Account, at: Position, id: MessageId, sender: Sender)
    requires PcOf(s, h) == Inserting(a, at, id, sender)
    requires Key(a, id) !in s.stored ==> Inserted(s, t, h, a, at, id, sender)
    requires Key(a, id) in s.stored ==> t == s.(handlers := s.handlers[h := Walking(a, at + 1)])
    ensures t == Next(s, Insert(h))
  {
    hide Record;
  }

  lemma {:induction false} YieldIs(s: State, t: State, h: Handler, a: Account, at: Position)
    requires PcOf(s, h) == Walking(a, at) && a in s.logs && at < |s.logs[a]|
    requires var change := s.logs[a][at];
             t == s.(handlers := s.handlers[h :=
               if change.Added? then Fetching(a, at, change.id) else Walking(a, at + 1)])
    ensures t == Next(s, Yield(h))
  {
    assert Log(s, a) == s.logs[a];
  }

  lemma {:induction false} SetCursorEnds(s: State, h: Handler, a: Account, position: Position, reset: bool)
    requires PcOf(s, h) == Setting(a, position, reset)
    ensures var t := DoSetCursor(s, h); PcOf(t, h) == Over && a in t.cursors && t.cursors[a] == position
  {
    hide At, Higher;
  }

  lemma {:induction false} FreshIs(s: State, t: State, h: Handler, a: Account, position: Position)
    requires PcOf(s, h) == Resyncing(a) || PcOf(s, h) == Initialising(a)
    requires position == if a in s.logs then |s.logs[a]| else 0
    requires t == s.(handlers := s.handlers[h := Setting(a, position, true)], reported := s.reported + {(a, position)})
    ensures t == DoFresh(s, h) == Next(s, Fresh(h)) && PcOf(t, h) == Setting(a, position, true)
  {
  }

  lemma {:induction false} ExpireIs(s: State, t: State, h: Handler, a: Account)
    requires h in s.handlers && WalkOf(s.handlers[h]) == Some(a)
    requires t == s.(handlers := s.handlers[h := Resyncing(a)], dropped := s.dropped + Owed(s.handlers[h]))
    ensures t == Next(s, Expire(h)) && PcOf(t, h) == Resyncing(a)
  {
    hide Owed;
  }

  lemma {:induction false} GotIs(
      s: State, t: State, h: Handler, a: Account, at: Position, id: MessageId, sender: Sender)
    requires PcOf(s, h) == Fetching(a, at, id) && t == s.(handlers := s.handlers[h := Looking(a, at, id, sender)])
    ensures t == Next(s, Got(h, sender)) && PcOf(t, h) == Looking(a, at, id, sender)
  {
  }

  lemma {:induction false} GoneIs(s: State, t: State, h: Handler, a: Account, at: Position, id: MessageId)
    requires PcOf(s, h) == Fetching(a, at, id)
    requires t == s.(handlers := s.handlers[h := Walking(a, at + 1)], vanished := s.vanished + {Key(a, id)})
    ensures t == Next(s, Gone(h)) && PcOf(t, h) == Walking(a, at + 1)
  {
  }

  lemma {:induction false} StateEta(t: State)
    ensures t == State(t.logs, t.cursors, t.stored, t.contacts, t.handlers, t.vanished,
                       t.resets, t.reported, t.isNew, t.winner, t.enqueued, t.dropped)
  {
  }

  class Tables {
    var logs: map<Account, seq<Change>>
    var cursors: map<Account, Position>
    var stored: map<Key, Sender>
    var contacts: map<string, nat>
    // What happened, for specification only.
    var handlers: map<Handler, Pc>
    var vanished: set<Key>
    var resets: map<Account, Position>
    var reported: set<(Account, Position)>
    var isNew: map<Key, nat>
    var winner: map<Key, Handler>
    var enqueued: map<Key, nat>
    var dropped: set<Key>

    function View(): State
      reads this
    {
      State(logs, cursors, stored, contacts, handlers, vanished, resets, reported, isNew, winner, enqueued, dropped)
    }

    constructor ()
      ensures View() == Initial
    {
      logs, cursors, stored, contacts := map[], map[], map[], map[];
      handlers, vanished, resets, reported := map[], {}, map[], {};
      isNew, winner, enqueued, dropped := map[], map[], map[], {};
    }

    /** `recordInbound`: an upsert that creates the contact or counts one more message from it. */
    method RecordInbound(sender: Sender)
      modifies `contacts
      ensures contacts == Record(old(contacts), sender)
      ensures var who := Text.Lower(Text.Trim(sender.address));
              contacts == if '@' in sender.address then old(contacts)[who := At(old(contacts), who) + 1]
                          else old(contacts)
    {
      hide ContactOf;
      ContactIs(sender, Text.Lower(Text.Trim(sender.address)));
      if ContactOf(sender).Some? {
        ContactIs(sender, ContactOf(sender).value);
      }
      var contact := ContactOf(sender);
      if contact.Some? {
        var address := contact.value;
        if address in contacts {
          contacts := contacts[address := contacts[address] + 1];
        } else {
          contacts := contacts[address := 1];
        }
      }
    }

    /**
     * The second half of `persist`: `createMany` with `skipDuplicates`, and the contact in
     * the same transaction only when a row was created.
     */
    method InsertMessage(h: Handler, a: Account, at: Position, id: MessageId, sender: Sender)
        returns (created: bool)
      requires PcOf(View(), h) == Inserting(a, at, id, sender)
      modifies this
      ensures created <==> Key(a, id) !in old(stored)
      ensures created ==> Inserted(old(View()), View(), h, a, at, id, sender)
      ensures !created ==> View() == old(View()).(handlers := old(handlers)[h := Walking(a, at + 1)])
    {
      hide Record, Text.Lower, Text.Trim, PcOf;
      var key := Key(a, id);
      created := key !in stored;
      if created {
        stored := stored[key := sender];
        RecordInbound(sender);
        isNew := isNew[key := At(isNew, key) + 1];
        winner := winner[key := h];
        handlers := handlers[h := Enqueueing(a, at, id)];
      } else {
        handlers := handlers[h := Walking(a, at + 1)];
      }
    }

    method FindExisting(h: Handler, a: Account, at: Position, id: MessageId, sender: Sender)
        returns (existing: bool)
      requires PcOf(View(), h) == Looking(a, at, id, sender)
      modifies `handlers
      ensures View() == DoLook(old(View()), h)
      ensures existing <==> Key(a, id) in stored
    {
      existing := Key(a, id) in stored;
      handlers := handlers[h := if existing then Walking(a, at + 1) else Inserting(a, at, id, sender)];
    }

    /** Queues the analysis job of a message that is new. */
    method EnqueueAnalysis(h: Handler, a: Account, at: Position, id: MessageId)
      requires PcOf(View(), h) == Enqueueing(a, at, id)
      modifies this
      ensures View() == DoEnqueue(old(View()), h)
    {
      enqueued := enqueued[Key(a, id) := At(enqueued, Key(a, id)) + 1];
      handlers := handlers[h := Walking(a, at + 1)];
    }

    /** `setCursor`: unconditional, so a late writer can move it back. */
    method WriteCursor(h: Handler, a: Account, position: Position, reset: bool)
      requires PcOf(View(), h) == Setting(a, position, reset)
      modifies this
      ensures View() == DoSetCursor(old(View()), h)
    {
      cursors := cursors[a := position];
      if reset {
        resets := resets[a := Higher(At(resets, a), position)];
      }
      handlers := handlers[h := Over];
    }

    /** Records how far this handler has come. */
    method MoveTo(h: Handler, pc: Pc)
      modifies `handlers
      ensures View() == old(View()).(handlers := old(handlers)[h := pc]) && PcOf(View(), h) == pc
    {
      handlers := handlers[h := pc];
    }

    method SetHistory(t: State)
      modifies `vanished, `resets, `reported, `isNew, `winner, `enqueued, `dropped
      ensures vanished == t.vanished && resets == t.resets && reported == t.reported
      ensures isNew == t.isNew && winner == t.winner && enqueued == t.enqueued && dropped == t.dropped
    {
      vanished, resets, reported := t.vanished, t.resets, t.reported;
      isNew, winner, enqueued, dropped := t.isNew, t.winner, t.enqueued, t.dropped;
    }

    method Become(t: State)
      modifies this
      ensures View() == t
    {
      logs, cursors, stored, contacts, handlers := t.logs, t.cursors, t.stored, t.contacts, t.handlers;
      SetHistory(t);
      StateEta(t);
    }

    /** An `await`: whatever everybody else does is added to the trace. */
    method Wait(h: Handler, ghost before: State, trace: seq<Event>) returns (longer: seq<Event>)
      requires View() == Run(before, trace)
      modifies this
      ensures View() == Run(before, longer) && PcOf(View(), h) == PcOf(old(View()), h)
      ensures Own(longer, h) == Own(trace, h) && Kept(old(View()), View())
    {
      ghost var s := View();
      var events: seq<Event> := *;
      if exists e <- events :: IsBy(e, h) {
        events := [];
      }
      Become(Run(View(), events));
      OthersLeaveHandler(s, events, h);
      OthersAppend(before, trace, events, h);
      RunKeeps(s, events);
      longer := trace + events;
    }

    /** Every other error: the handler is over. */
    method Die(h: Handler, ghost before: State, trace: seq<Event>) returns (longer: seq<Event>)
      requires View() == Run(before, trace) && h in handlers
      modifies `handlers, `dropped
      ensures View() == DoDie(old(View()), h) == Run(before, longer) && PcOf(View(), h) == Over
      ensures Kept(old(View()), View())
      ensures Own(longer, h) == Own(trace, h) + [Ingest.Die(h)]
    {
      hide Own, Kept;
      DieKeeps(View(), h);
      dropped := dropped + Owed(handlers[h]);
      handlers := handlers[h := Over];
      RunExtend(before, trace, Ingest.Die(h), h);
      longer := trace + [Ingest.Die(h)];
    }

    /** An error ends the handler; one that reads as an expired history makes it resynchronise instead. */
    method Fail(h: Handler, a: Account, expired: bool, w: World, ghost before: State, trace: seq<Event>)
        returns (exit: Exit, longer: seq<Event>)
      requires View() == Run(before, trace) && h in handlers && WalkOf(handlers[h]) == Some(a)
      modifies this
      ensures View() == Run(before, longer) && PcOf(View(), h) == Over
      ensures exit.Threw? || (expired && exit.Resynced?)
      ensures expired && !w.positionThrows && !w.cursorThrows ==> exit.Resynced?
      ensures EndsWith(Own(longer, h), Ending(h, exit)) && HasStored(cursors, a, exit)
    {
      hide Next, Run, Own;
      if expired {
        longer := StartOver(h, a, before, trace);
        exit, longer := Resync(h, a, w, before, longer);
      } else {
        longer := Die(h, before, trace);
        exit := Threw;
      }
    }

    method StartOver(h: Handler, a: Account, ghost before: State, trace: seq<Event>) returns (longer: seq<Event>)
      requires View() == Run(before, trace) && h in handlers && WalkOf(handlers[h]) == Some(a)
      modifies `handlers, `dropped
      ensures View() == Run(before, longer) && PcOf(View(), h) == Resyncing(a)
      ensures Own(longer, h) == Own(trace, h) + [Expire(h)]
    {
      hide Own, Next, Run, PcOf, Owed, WalkOf;
      ghost var s := View();
      dropped := dropped + Owed(handlers[h]);
      handlers := handlers[h := Resyncing(a)];
      ExpireIs(s, View(), h, a);
      RunExtend(before, trace, Expire(h), h);
      longer := trace + [Expire(h)];
    }

    /** `getInitialCursor` and `setCursor`, on a first sync and after an expired history. */
    method Resync(h: Handler, a: Account, w: World, ghost before: State, trace: seq<Event>)
        returns (exit: Exit, longer: seq<Event>)
      requires View() == Run(before, trace)
      requires PcOf(View(), h) == Resyncing(a) || PcOf(View(), h) == Initialising(a)
      modifies this
      ensures View() == Run(before, longer) && PcOf(View(), h) == Over
      ensures exit.Threw? <==> w.positionThrows || w.cursorThrows
      ensures exit.Threw? || if old(PcOf(View(), h)).Resyncing? then exit.Resynced? else exit.Initialised?
      ensures HasStored(cursors, a, exit)
      ensures if exit.Threw? then EndsWith(Own(longer, h), [Ingest.Die(h)])
              else Own(longer, h) == Own(trace, h) + [Fresh(h), SetCursor(h)]
    {
      hide Next, Run, Own;
      var first := PcOf(View(), h).Initialising?;
      longer := Wait(h, before, trace);
      if w.positionThrows {
        longer := Die(h, before, longer);
        return Threw, longer;
      }
      var position := AskPosition(h, a, before, longer);
      longer := longer + [Fresh(h)];
      longer := SetAndEnd(h, a, position, true, w, before, longer);
      exit := if w.cursorThrows then Threw else if first then Initialised(position) else Resynced(position);
    }

    method AskPosition(h: Handler, a: Account, ghost before: State, trace: seq<Event>) returns (position: Position)
      requires View() == Run(before, trace)
      requires PcOf(View(), h) == Resyncing(a) || PcOf(View(), h) == Initialising(a)
      modifies `reported, `handlers
      ensures View() == DoFresh(old(View()), h) == Run(before, trace + [Fresh(h)])
      ensures PcOf(View(), h) == Setting(a, position, true)
      ensures Own(trace + [Fresh(h)], h) == Own(trace, h) + [Fresh(h)]
    {
      ghost var s := View();
      position := if a in logs then |logs[a]| else 0;
      reported := reported + {(a, position)};
      handlers := handlers[h := Setting(a, position, true)];
      FreshIs(s, View(), h, a, position);
      hide Next, Run, Own, DoFresh;
      RunExtend(before, trace, Fresh(h), h);
    }

    method SetAndEnd(h: Handler, a: Account, position: Position, reset: bool, w: World,
                     ghost before: State, trace: seq<Event>)
        returns (longer: seq<Event>)
      requires View() == Run(before, trace) && PcOf(View(), h) == Setting(a, position, reset)
      modifies this
      ensures View() == Run(before, longer) && PcOf(View(), h) == Over
      ensures Own(longer, h) == Own(trace, h) + [if w.cursorThrows then Ingest.Die(h) else SetCursor(h)]
      ensures Kept(old(View()), View())
      ensures !w.cursorThrows ==> a in cursors && cursors[a] == position
    {
      hide Own, Kept, Run, Next;
      longer := Wait(h, before, trace);
      ghost var s := View();
      if w.cursorThrows {
        longer := Die(h, before, longer);
      } else {
        longer := SetNow(h, a, position, reset, before, longer);
      }
      KeptIsTransitive(old(View()), s, View());
    }

    method SetNow(h: Handler, a: Account, position: Position, reset: bool, ghost before: State, trace: seq<Event>)
        returns (longer: seq<Event>)
      requires View() == Run(before, trace) && PcOf(View(), h) == Setting(a, position, reset)
      modifies this
      ensures View() == Run(before, longer) && PcOf(View(), h) == Over && Kept(old(View()), View())
      ensures Own(longer, h) == Own(trace, h) + [SetCursor(h)]
      ensures a in cursors && cursors[a] == position
    {
      hide Own, Kept, Run;
      SetCursorKeeps(View(), h);
      SetCursorEnds(View(), h, a, position, reset);
      WriteCursor(h, a, position, reset);
      hide DoSetCursor;
      RunExtend(before, trace, SetCursor(h), h);
      longer := trace + [SetCursor(h)];
    }

    method Announce(h: Handler, a: Account, at: Position, id: MessageId, turn: Turn,
                    ghost before: State, trace: seq<Event>)
        returns (longer: seq<Event>, failed: bool)
      requires View() == Run(before, trace) && PcOf(View(), h) == Enqueueing(a, at, id)
      modifies this
      ensures View() == Run(before, longer) && Kept(old(View()), View())
      ensures failed <==> turn.throws == Some(Queue)
      ensures if failed then h in handlers && WalkOf(handlers[h]) == Some(a) else PcOf(View(), h) == Walking(a, at + 1)
    {
      hide Own, Kept, At;
      longer := Wait(h, before, trace);
      failed := turn.throws == Some(Queue);
      if failed { return; }
      StepKeeps(old(View()), View(), Enqueue(h));
      EnqueueAnalysis(h, a, at, id);
      RunExtend(before, longer, Enqueue(h), h);
      longer := longer + [Enqueue(h)];
    }

    /** The second half of `persist`, and the analysis job if the row is new. */
    method Create(h: Handler, a: Account, at: Position, id: MessageId, sender: Sender, turn: Turn,
                  ghost before: State, trace: seq<Event>)
        returns (longer: seq<Event>, failed: bool)
      requires View() == Run(before, trace) && PcOf(View(), h) == Inserting(a, at, id, sender)
      modifies this
      ensures View() == Run(before, longer) && Kept(old(View()), View())
      ensures if failed then h in handlers && WalkOf(handlers[h]) == Some(a) else PcOf(View(), h) == Walking(a, at + 1)
      ensures failed ==> turn.throws.Some?
      ensures !failed ==> Key(a, id) in stored
    {
      hide Own, Kept, Record, At;
      longer := Wait(h, before, trace);
      failed := turn.throws == Some(CreateRow);
      if failed { return; }
      ghost var s := View();
      StepKeeps(old(View()), s, Insert(h));
      var created := InsertMessage(h, a, at, id, sender);
      InsertIs(s, View(), h, a, at, id, sender);
      RunExtend(before, longer, Insert(h), h);
      longer := longer + [Insert(h)];
      if !created { return; }

      ghost var t := View();
      longer, failed := Announce(h, a, at, id, turn, before, longer);
      KeptIsTransitive(old(View()), t, View());
      StillStored(t, View(), Key(a, id));
    }

    /** `persist`, and the analysis job if the row is new; `failed` when something threw. */
    method StoreAndAnnounce(h: Handler, a: Account, at: Position, id: MessageId, sender: Sender, turn: Turn,
                            ghost before: State, trace: seq<Event>)
        returns (longer: seq<Event>, failed: bool)
      requires View() == Run(before, trace) && PcOf(View(), h) == Looking(a, at, id, sender)
      modifies this
      ensures View() == Run(before, longer) && Kept(old(View()), View())
      ensures if failed then h in handlers && WalkOf(handlers[h]) == Some(a) else PcOf(View(), h) == Walking(a, at + 1)
      ensures failed ==> turn.throws.Some?
      ensures !failed ==> Key(a, id) in stored
    {
      hide Own, Kept, Record, At;
      longer := Wait(h, before, trace);
      failed := turn.throws == Some(FindRow);
      if failed { return; }
      StepKeeps(old(View()), View(), Look(h));
      var existing := FindExisting(h, a, at, id, sender);
      RunExtend(before, longer, Look(h), h);
      longer := longer + [Look(h)];
      if existing { return; }

      ghost var t := View();
      longer, failed := Create(h, a, at, id, sender, turn, before, longer);
      KeptIsTransitive(old(View()), t, View());
    }

    method Receive(h: Handler, a: Account, at: Position, id: MessageId, sender: Sender,
                   ghost before: State, trace: seq<Event>)
        returns (longer: seq<Event>)
      requires View() == Run(before, trace) && PcOf(View(), h) == Fetching(a, at, id)
      modifies `handlers
      ensures View() == Run(before, longer) && Kept(old(View()), View())
      ensures PcOf(View(), h) == Looking(a, at, id, sender)
    {
      hide Own, Kept, Next, Run, PcOf;
      ghost var s := View();
      NextKeeps(s, Got(h, sender));
      handlers := handlers[h := Looking(a, at, id, sender)];
      GotIs(s, View(), h, a, at, id, sender);
      RunExtend(before, trace, Got(h, sender), h);
      longer := trace + [Got(h, sender)];
    }

    /** A message deleted between its history record and the fetch. */
    method Skip(h: Handler, a: Account, at: Position, id: MessageId, ghost before: State, trace: seq<Event>)
        returns (longer: seq<Event>)
      requires View() == Run(before, trace) && PcOf(View(), h) == Fetching(a, at, id)
      modifies `handlers, `vanished
      ensures View() == Run(before, longer) && Kept(old(View()), View())
      ensures PcOf(View(), h) == Walking(a, at + 1) && Key(a, id) in vanished
    {
      hide Own, Kept, Next, Run, PcOf;
      ghost var s := View();
      NextKeeps(s, Gone(h));
      handlers := handlers[h := Walking(a, at + 1)];
      vanished := vanished + {Key(a, id)};
      GoneIs(s, View(), h, a, at, id);
      RunExtend(before, trace, Gone(h), h);
      longer := trace + [Gone(h)];
    }

    /** The provider's answer: the message, or that it is gone, which is skipped. */
    method FetchAndStore(h: Handler, a: Account, at: Position, id: MessageId, turn: Turn,
                         ghost before: State, trace: seq<Event>)
        returns (longer: seq<Event>, failed: bool)
      requires View() == Run(before, trace) && PcOf(View(), h) == Fetching(a, at, id)
      modifies this
      ensures View() == Run(before, longer) && Kept(old(View()), View())
      ensures if failed then h in handlers && WalkOf(handlers[h]) == Some(a) else PcOf(View(), h) == Walking(a, at + 1)
      ensures failed ==> turn.throws.Some?
      ensures !failed ==> if turn.reply.Some? then Key(a, id) in stored else Key(a, id) in vanished
    {
      hide Own, Kept, Record, At;
      longer := Wait(h, before, trace);
      failed := turn.throws == Some(Fetch);
      if failed { return; }
      ghost var s := View();
      if turn.reply.Some? {
        longer := Receive(h, a, at, id, turn.reply.value, before, longer);
        ghost var t := View();
        KeptIsTransitive(old(View()), s, t);
        longer, failed := StoreAndAnnounce(h, a, at, id, turn.reply.value, turn, before, longer);
        KeptIsTransitive(old(View()), t, View());
      } else {
        longer := Skip(h, a, at, id, before, longer);
        KeptIsTransitive(old(View()), s, View());
      }
    }

    /** The generator yields the change at `at`. */
    method TakeChange(h: Handler, a: Account, at: Position, change: Change, ghost before: State, trace: seq<Event>)
        returns (longer: seq<Event>)
      requires View() == Run(before, trace) && PcOf(View(), h) == Walking(a, at)
      requires a in logs && at < |logs[a]| && change == logs[a][at]
      modifies `handlers
      ensures View() == Run(before, longer) && Kept(old(View()), View())
      ensures PcOf(View(), h) == if change.Added? then Fetching(a, at, change.id) else Walking(a, at + 1)
    {
      hide Next, Run, Kept, Own;
      ghost var s := View();
      MoveTo(h, if change.Added? then Fetching(a, at, change.id) else Walking(a, at + 1));
      YieldIs(s, View(), h, a, at);
      NextKeeps(s, Yield(h));
      RunExtend(before, trace, Yield(h), h);
      longer := trace + [Yield(h)];
    }

    /** One turn of the loop: a change the generator yields, dealt with. */
    method ProcessChange(h: Handler, a: Account, at: Position, turn: Turn, ghost before: State, trace: seq<Event>)
        returns (longer: seq<Event>, failed: bool)
      requires View() == Run(before, trace) && PcOf(View(), h) == Walking(a, at)
      requires a in logs && at < |logs[a]|
      modifies this
      ensures View() == Run(before, longer) && Kept(old(View()), View())
      ensures if failed then h in handlers && WalkOf(handlers[h]) == Some(a) else PcOf(View(), h) == Walking(a, at + 1)
      ensures failed ==> turn.throws.Some?
      ensures var change := old(logs[a][at]);
              !failed && change.Added? ==>
                if turn.reply.Some? then Key(a, change.id) in stored else Key(a, change.id) in vanished
    {
      hide Own, Kept, Run, Next;
      failed := false;
      var change := logs[a][at];
      longer := TakeChange(h, a, at, change, before, trace);
      if !change.Added? { return; }

      ghost var t := View();
      longer, failed := FetchAndStore(h, a, at, change.id, turn, before, longer);
      KeptIsTransitive(old(View()), t, View());
    }

    /** The position the generator returns, if any, becomes the cursor, only now. */
    method Store(h: Handler, a: Account, at: Position, w: World, ghost before: State, trace: seq<Event>)
        returns (exit: Exit, longer: seq<Event>)
      requires View() == Run(before, trace) && PcOf(View(), h) == Walking(a, at)
      modifies this
      ensures View() == Run(before, longer) && PcOf(View(), h) == Over && Kept(old(View()), View())
      ensures exit == if !w.reports then Unadvanced else if w.cursorThrows then Threw else Advanced(at)
      ensures HasStored(cursors, a, exit)
      ensures Own(longer, h) ==
              Own(trace, h) + if exit.Threw? then [Finish(h, true), Ingest.Die(h)] else Ending(h, exit)
    {
      hide Own, Kept, Run;
      ghost var s := View();
      NextKeeps(s, Finish(h, w.reports));
      if w.reports {
        reported := reported + {(a, at)};
        handlers := handlers[h := Setting(a, at, false)];
      } else {
        handlers := handlers[h := Over];
      }
      assert View() == DoFinish(s, h, w.reports);
      RunExtend(before, trace, Finish(h, w.reports), h);
      longer := trace + [Finish(h, w.reports)];
      exit := Unadvanced;
      if w.reports {
        ghost var t := View();
        longer := SetAndEnd(h, a, at, false, w, before, longer);
        KeptIsTransitive(s, t, View());
        exit := if w.cursorThrows then Threw else Advanced(at);
      }
    }

    /** The generator is asked for the next change; it may throw, and it may have none. */
    method TakeTurn(h: Handler, a: Account, at: Position, turn: Turn, ghost before: State, trace: seq<Event>)
        returns (took: bool, longer: seq<Event>, failed: bool)
      requires View() == Run(before, trace) && PcOf(View(), h) == Walking(a, at)
      modifies this
      ensures View() == Run(before, longer) && Kept(old(View()), View())
      ensures if failed then h in handlers && WalkOf(handlers[h]) == Some(a)
              else PcOf(View(), h) == Walking(a, if took then at + 1 else at)
      ensures failed ==> turn.throws.Some?
      ensures !failed && !took ==> |Log(View(), a)| <= at
      ensures !failed && took && turn.reply.Some? ==> AreStored(View(), a, at, at + 1)
    {
      hide Own, Kept, Run, Next, AreStored;
      took := false;
      longer := Wait(h, before, trace);
      failed := turn.throws == Some(Generator);
      if !failed && a in logs && at < |logs[a]| {
        took := true;
        ghost var s := View();
        longer, failed := ProcessChange(h, a, at, turn, before, longer);
        KeptIsTransitive(old(View()), s, View());
        if !failed && turn.reply.Some? {
          StoredNone(s, a, at);
          OneMoreStored(s, View(), a, at, at);
        }
      }
    }

    /**
     * The `try`: drives the generator by hand, then stores the position it returns, if any.
     * That position lies behind every change that was there at the start, as far as the
     * provider's pages go.
     */
    method Walk(h: Handler, a: Account, from: Position, w: World, ghost before: State, trace: seq<Event>)
        returns (exit: Exit, longer: seq<Event>)
      requires View() == Run(before, trace) && PcOf(View(), h) == Walking(a, from)
      modifies this
      ensures View() == Run(before, longer) && PcOf(View(), h) == Over
      ensures EndsWith(Own(longer, h), Ending(h, exit)) && HasStored(cursors, a, exit)
      ensures match exit
              case Initialised(_) => false
              case Advanced(position) =>
                && w.reports && from <= position <= from + |w.turns|
                && (position == from + |w.turns| || |Log(old(View()), a)| <= position)
                && (HasAll(w.turns) ==> AreStored(View(), a, from, position))
              case Unadvanced => !w.reports
              case Resynced(_) => HasExpired(w)
              case Threw => !IsSmooth(w)
    {
      hide Own, Kept, Run, Next, AreStored, Log;
      longer := trace;
      var at: Position := from;
      StoredNone(View(), a, from);
      NothingLost(View());
      for i := 0 to |w.turns|
        invariant View() == Run(before, longer) && PcOf(View(), h) == Walking(a, at)
        invariant Kept(old(View()), View()) && from <= at <= from + i
        invariant at == from + i || |Log(old(View()), a)| <= at
        invariant HasAll(w.turns[..i]) ==> AreStored(View(), a, from, at)
      {
        var turn := w.turns[i];
        var failed: bool;
        ghost var s := View();
        var took: bool;
        took, longer, failed := TakeTurn(h, a, at, turn, before, longer);
        if failed {
          exit, longer := Fail(h, a, turn.expired, w, before, longer);
          return;
        }
        assert w.turns[..i + 1][..i] == w.turns[..i];
        if HasAll(w.turns[..i + 1]) {
          assert turn == w.turns[..i + 1][i];
          StoredOn(s, View(), a, from, at, took);
        }
        KeptIsTransitive(old(View()), s, View());
        LogsGrow(old(View()), View(), a);
        if took { at := at + 1; }
      }
      assert w.turns[..|w.turns|] == w.turns;
      ghost var s := View();
      exit, longer := Store(h, a, at, w, before, longer);
      if HasAll(w.turns) {
        StoredStays(s, View(), a, from, at);
      }
    }

    method Begin(h: Handler, a: Account) returns (trace: seq<Event>)
      requires h !in handlers
      modifies `handlers
      ensures trace == [Start(h, a)] && View() == Run(old(View()), trace) && PcOf(View(), h) == Starting(a)
      ensures Kept(old(View()), View())
    {
      ghost var before := View();
      NextKeeps(before, Start(h, a));
      handlers := handlers[h := Starting(a)];
      trace := [Start(h, a)];
      assert trace[..0] == [];
      assert View() == Next(before, Start(h, a));
    }

    /** Reading the account: its stored cursor, if it has one, is where the walk starts. */
    method LoadCursor(h: Handler, a: Account, ghost before: State, trace: seq<Event>)
        returns (from: Option<Position>, longer: seq<Event>)
      requires View() == Run(before, trace) && PcOf(View(), h) == Starting(a)
      modifies `handlers
      ensures from == if a in cursors then Some(cursors[a]) else None
      ensures View() == DoLoad(old(View()), h) == Run(before, longer) && Own(longer, h) == Own(trace, h) + [Load(h)]
      ensures PcOf(View(), h) == if from.Some? then Walking(a, from.value) else Initialising(a)
    {
      from := if a in cursors then Some(cursors[a]) else None;
      handlers := handlers[h := if from.Some? then Walking(a, from.value) else Initialising(a)];
      hide Own;
      RunExtend(before, trace, Load(h), h);
      longer := trace + [Load(h)];
    }

    /** `handle`: from the stored cursor, never from the one on the job. If nothing throws, a position is stored. */
    method Handle(h: Handler, a: Account, w: World) returns (exit: Exit, trace: seq<Event>)
      requires h !in handlers
      modifies this
      ensures View() == Run(old(View()), trace) && PcOf(View(), h) == Over
      ensures EndsWith(Own(trace, h), Ending(h, exit)) && HasStored(cursors, a, exit)
      ensures match exit
              case Initialised(_) => a !in old(cursors)
              case Advanced(_) => w.reports
              case Unadvanced => !w.reports
              case Resynced(_) => HasExpired(w)
              case Threw => !IsSmooth(w)
    {
      hide Kept, Own, Next, Run, Log, HasExpired, DoLoad;
      ghost var before := View();
      trace := Begin(h, a);
      ghost var began := View();
      trace := Wait(h, before, trace);
      KeptIsTransitive(before, began, View());
      CursorsStay(before, View(), a);
      var from;
      from, trace := LoadCursor(h, a, before, trace);
      if from.Some? {
        exit, trace := Walk(h, a, from.value, w, before, trace);
      } else {
        exit, trace := Resync(h, a, w, before, trace);
      }
    }
  }
}
