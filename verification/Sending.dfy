/**
 * The life of one draft from `queued` on (`DraftRepository`, `SendProcessor.handle`).
 *
 * Any number of job attempts race on the draft: duplicated, retried, stalled and
 * redelivered ones. Every statement of a handler that commits is one event; errors may
 * surface after any of them and a handler may die anywhere. A cancel may come at any
 * time. A draft's row is written only by operations that name it, so one draft
 * suffices.
 */
module Sending {
  import opened Basics

  type Handler = nat

  datatype Status = Queued | Sending | Sent | Failed | Cancelled

  datatype Pc =
    | Started                                     // before `claimForSending`
    | Loading                                     // claimed; `accounts.load` is outside the `try`
    | Composing                                   // inside the `try`, up to and including `provider.send`
    | Accepted                                    // the provider took it and said so; `markSent` is next
    | Confirming                                  // marked; the confirmation reply is next
    | Failing(retryable: bool, accepted: bool)    // in the `catch`; `markFailed` is next
    | Over

  /** How collecting the attachments and calling `provider.send` can end. */
  datatype Attempt =
    | NotAttempted(retryable: bool)    // an attachment could not be fetched
    | Refused(retryable: bool)         // the provider did not take the message
    | Taken                            // the provider took it
    | TakenUnheard(retryable: bool)    // it took it, and the call still failed

  /**
   * The draft's status and its handlers. The counters are history: provider calls made,
   * messages the provider took, requeues by `markFailed`, those of them by a handler
   * whose own message had been taken, and whether one was taken since the draft was
   * last queued.
   */
  datatype State = State(
    status: Status, handlers: map<Handler, Pc>,
    calls: nat, taken: nat, requeues: nat, resends: nat, takenSinceQueued: bool)

  const Initial := State(Queued, map[], 0, 0, 0, 0, false)

  datatype Event =
    | Start(h: Handler)
    | Claim(h: Handler, decrypts: bool)
    | Load(h: Handler, ok: bool)
    | Send(h: Handler, attempt: Attempt)
    | SentMark(h: Handler, fault: Option<bool>)     // a fault says whether its error is retryable
    | Confirm(h: Handler, fault: Option<bool>)
    | FailMark(h: Handler, ok: bool)
    | Crash(h: Handler)
    | Cancel

  predicate IsAt(s: State, h: Handler, pc: Pc) {
    h in s.handlers && s.handlers[h] == pc
  }

  function To(s: State, h: Handler, pc: Pc): State {
    s.(handlers := s.handlers[h := pc])
  }

  function Next(s: State, e: Event): State {
    match e
    case Start(h) => if h in s.handlers then s else To(s, h, Started)
    case Claim(h, decrypts) =>
      if !IsAt(s, h, Started) then s
      else if s.status != Queued || !decrypts then To(s, h, Over)
      else To(s, h, Loading).(status := Sending)
    case Load(h, ok) =>
      if !IsAt(s, h, Loading) then s else To(s, h, if ok then Composing else Over)
    case Send(h, attempt) =>
      if !IsAt(s, h, Composing) then s else
      (match attempt
       case NotAttempted(retryable) => To(s, h, Failing(retryable, false))
       case Refused(retryable) => To(s, h, Failing(retryable, false)).(calls := s.calls + 1)
       case Taken => To(s, h, Accepted).(calls := s.calls + 1, taken := s.taken + 1, takenSinceQueued := true)
       case TakenUnheard(retryable) =>
         To(s, h, Failing(retryable, true)).(calls := s.calls + 1, taken := s.taken + 1, takenSinceQueued := true))
    case SentMark(h, fault) =>
      if !IsAt(s, h, Accepted) then s
      else if fault.Some? then To(s, h, Failing(fault.value, true))
      else To(s, h, Confirming).(status := Sent)
    case Confirm(h, fault) =>
      if !IsAt(s, h, Confirming) then s
      else To(s, h, if fault.Some? then Failing(fault.value, true) else Over)
    case FailMark(h, ok) =>
      if h !in s.handlers || !s.handlers[h].Failing? then s else
      var pc := s.handlers[h];
      if !ok then To(s, h, Over)
      else if !pc.retryable then To(s, h, Over).(status := Failed)
      else To(s, h, Over).(
        status := Queued, requeues := s.requeues + 1,
        resends := s.resends + (if pc.accepted then 1 else 0), takenSinceQueued := false)
    case Crash(h) => if h in s.handlers then To(s, h, Over) else s
    case Cancel => if s.status == Queued then s.(status := Cancelled) else s
  }

  function Run(s: State, events: seq<Event>): State
    decreases |events|
  {
    if events == [] then s else Next(Run(s, events[..|events| - 1]), events[|events| - 1])
  }

  // ------------------------------------------------------------ the invariant

  /** Past the claim and not yet done with the row. */
  predicate Holds(pc: Pc) {
    !pc.Started? && !pc.Over?
  }

  /** A handler past the provider's acceptance, whether or not it knows. */
  predicate PastAcceptance(pc: Pc) {
    pc.Accepted? || pc.Confirming? || (pc.Failing? && pc.accepted)
  }

  predicate HolderOk(s: State, h: Handler)
    requires h in s.handlers
  {
    var pc := s.handlers[h];
    Holds(pc) ==>
      && (s.status == Sending || s.status == Sent)
      && (s.status == Sent ==> pc == Confirming || (pc.Failing? && pc.accepted))
      && (pc == Confirming ==> s.status == Sent)
      && s.takenSinceQueued == PastAcceptance(pc)
  }

  ghost predicate OneHolder(s: State) {
    forall g, h {:trigger s.handlers[g], s.handlers[h]} ::
      g in s.handlers && h in s.handlers && Holds(s.handlers[g]) && Holds(s.handlers[h]) ==> g == h
  }

  ghost predicate Inv(s: State) {
    && OneHolder(s)
    && (forall h {:trigger HolderOk(s, h)} :: h in s.handlers ==> HolderOk(s, h))
    && (s.status == Queued ==> !s.takenSinceQueued)
    && (s.status == Sent ==> s.takenSinceQueued)
    && s.taken == s.resends + (if s.takenSinceQueued then 1 else 0)
    && s.resends <= s.requeues
    && s.taken <= s.calls
  }

  lemma {:induction false} NextHolders(s: State, e: Event, t: State)
    requires Inv(s) && t == Next(s, e)
    ensures forall h {:trigger HolderOk(t, h)} :: h in t.handlers ==> HolderOk(t, h)
  {
    if !e.Cancel? {
      assert e.h in s.handlers ==> HolderOk(s, e.h);
    }
    forall h <- t.handlers ensures HolderOk(t, h) {
      assert h in s.handlers ==> HolderOk(s, h);
    }
  }

  /** Only the claim of a queued draft makes a holder. */
  lemma HoldersAreMadeByClaims(s: State, e: Event, h: Handler)
    requires h in Next(s, e).handlers && Holds(Next(s, e).handlers[h])
    ensures h in s.handlers && (Holds(s.handlers[h]) || (e.Claim? && e.h == h && s.status == Queued))
  {
  }

  lemma {:induction false} NextOneHolder(s: State, e: Event, t: State)
    requires Inv(s) && t == Next(s, e)
    ensures OneHolder(t)
  {
    hide Next;
    forall g, h | g in t.handlers && h in t.handlers && Holds(t.handlers[g]) && Holds(t.handlers[h])
      ensures g == h
    {
      HoldersAreMadeByClaims(s, e, g);
      HoldersAreMadeByClaims(s, e, h);
      assert HolderOk(s, g) && HolderOk(s, h);
    }
  }

  lemma {:induction false} NextKeepsInv(s: State, e: Event)
    requires Inv(s)
    ensures Inv(Next(s, e))
  {
    var t := Next(s, e);
    NextHolders(s, e, t);
    NextOneHolder(s, e, t);
    if !e.Cancel? {
      assert e.h in s.handlers ==> HolderOk(s, e.h);
    }
  }

  lemma {:induction false} RunKeepsInv(s: State, events: seq<Event>)
    requires Inv(s)
    ensures Inv(Run(s, events))
    decreases |events|
  {
    if events != [] {
      RunKeepsInv(s, events[..|events| - 1]);
      NextKeepsInv(Run(s, events[..|events| - 1]), events[|events| - 1]);
    }
  }

  ghost predicate Reachable(s: State) {
    exists events :: Run(Initial, events) == s
  }

  lemma {:induction false} ReachableInv(s: State)
    requires Reachable(s)
    ensures Inv(s)
  {
    var events :| Run(Initial, events) == s;
    RunKeepsInv(Initial, events);
  }

  lemma {:induction false} ReachableNext(s: State, e: Event)
    requires Reachable(s)
    ensures Reachable(Next(s, e))
  {
    var events :| Run(Initial, events) == s;
    assert (events + [e])[..|events|] == events;
    assert Run(Initial, events + [e]) == Next(s, e);
  }

  // ------------------------------------------------------------ what the machine guarantees

  /** Whatever races, at most one handler is past the claim. */
  lemma {:induction false} AtMostOneHolder(s: State, g: Handler, h: Handler)
    requires Reachable(s) && g in s.handlers && h in s.handlers
    requires Holds(s.handlers[g]) && Holds(s.handlers[h])
    ensures g == h && (s.status == Sending || s.status == Sent)
  {
    ReachableInv(s);
    assert HolderOk(s, h);
  }

  /**
   * How often the provider took the message: once for every requeue by a handler whose
   * own message had been taken, plus at most one. So at most once unless something
   * after an acceptance failed retryably and the draft was queued again.
   */
  lemma {:induction false} SendBound(s: State)
    requires Reachable(s)
    ensures s.taken == s.resends + (if s.takenSinceQueued then 1 else 0)
    ensures s.resends <= s.requeues && s.taken <= 1 + s.requeues
    ensures s.taken <= 1 <==> s.resends == 0 || (s.resends == 1 && !s.takenSinceQueued)
  {
    ReachableInv(s);
  }

  /** The bound is met: `n` retryable failures of the confirmation reply make `n + 1` copies. */
  lemma {:induction false} SendBoundIsTight(n: nat) returns (s: State)
    ensures Reachable(s) && s.taken == n + 1 && s.requeues == n && s.resends == n
  {
    s := ResentQueue(n);
    s := Delivery(s, n);
  }

  /** A queued draft whose message has gone out `n` times already. */
  lemma {:induction false} ResentQueue(n: nat) returns (s: State)
    ensures Reachable(s) && s.status == Queued
    ensures s.taken == n && s.requeues == n && s.resends == n
    ensures forall h <- s.handlers :: h < n
  {
    if n == 0 {
      s := Initial;
      assert Run(Initial, []) == s;
    } else {
      s := ResentQueue(n - 1);
      s := FailedConfirmation(s, n - 1);
    }
  }

  /** One attempt, up to the provider's acceptance. */
  lemma {:induction false} Delivery(s: State, h: Handler) returns (t: State)
    requires Reachable(s) && s.status == Queued && h !in s.handlers
    ensures Reachable(t) && t.status == Sending && t.handlers == s.handlers[h := Accepted]
    ensures t.taken == s.taken + 1 && t.requeues == s.requeues && t.resends == s.resends
  {
    t := s;
    ReachableNext(t, Start(h)); t := Next(t, Start(h));
    ReachableNext(t, Claim(h, true)); t := Next(t, Claim(h, true));
    ReachableNext(t, Load(h, true)); t := Next(t, Load(h, true));
    ReachableNext(t, Send(h, Taken)); t := Next(t, Send(h, Taken));
    assert t.handlers == s.handlers[h := Accepted];
  }

  /** One attempt that sends, is marked sent, and then fails to confirm with a retryable error. */
  lemma {:induction false} FailedConfirmation(s: State, h: Handler) returns (t: State)
    requires Reachable(s) && s.status == Queued && h !in s.handlers
    ensures Reachable(t) && t.status == Queued && t.handlers == s.handlers[h := Over]
    ensures t.taken == s.taken + 1 && t.requeues == s.requeues + 1 && t.resends == s.resends + 1
  {
    t := Delivery(s, h);
    ReachableNext(t, SentMark(h, None)); t := Next(t, SentMark(h, None));
    ReachableNext(t, Confirm(h, Some(true))); t := Next(t, Confirm(h, Some(true)));
    ReachableNext(t, FailMark(h, true)); t := Next(t, FailMark(h, true));
    assert t.handlers == s.handlers[h := Over];
  }

  /** No handler is past the claim and none can get there. */
  predicate Settled(s: State) {
    s.status != Queued && forall h <- s.handlers :: !Holds(s.handlers[h])
  }

  lemma {:induction false} SettledForever(s: State, events: seq<Event>)
    requires Settled(s)
    ensures var t := Run(s, events);
      Settled(t) && t.status == s.status && t.calls == s.calls && t.taken == s.taken
    decreases |events|
  {
    if events != [] {
      SettledForever(s, events[..|events| - 1]);
    }
  }

  /** `failed` and `cancelled` never change, and no provider call starts after them. */
  lemma {:induction false} FailedAndCancelledAreFinal(s: State, events: seq<Event>)
    requires Reachable(s) && (s.status == Failed || s.status == Cancelled)
    ensures Run(s, events).status == s.status && Run(s, events).calls == s.calls
  {
    ReachableInv(s);
    forall h <- s.handlers ensures !Holds(s.handlers[h]) {
      assert HolderOk(s, h);
    }
    SettledForever(s, events);
  }

  /** After a cancel that reported success, no send ever starts. */
  lemma {:induction false} CancelIsFinal(s: State, events: seq<Event>)
    requires Reachable(s) && s.status == Queued
    ensures var t := Run(Next(s, Cancel), events); t.status == Cancelled && t.calls == s.calls
  {
    ReachableNext(s, Cancel);
    FailedAndCancelledAreFinal(Next(s, Cancel), events);
  }

  /**
   * What a successful cancel does not promise: the mail may have gone already. It has
   * not exactly when no requeue followed an acceptance.
   */
  lemma {:induction false} CancelledUnsentExactly(s: State)
    requires Reachable(s) && s.status == Queued
    ensures Next(s, Cancel).taken == 0 <==> s.resends == 0
  {
    ReachableInv(s);
  }

  lemma {:induction false} CancelAfterSending() returns (s: State)
    ensures Reachable(s) && s.status == Cancelled && s.taken == 1
  {
    s := ResentQueue(1);
    ReachableNext(s, Cancel);
    s := Next(s, Cancel);
  }

  // ------------------------------------------------------------ drafts left in `sending`

  lemma {:induction false} RunOneFirst(s: State, e: Event, events: seq<Event>)
    ensures Run(s, [e] + events) == Run(Next(s, e), events)
    decreases |events|
  {
    if events == [] {
      assert [e] + events == [e] && [e][..0] == [];
    } else {
      var last := |events| - 1;
      assert ([e] + events)[..last + 1] == [e] + events[..last];
      RunOneFirst(s, e, events[..last]);
    }
  }

  predicate IsStranded(s: State) {
    s.status == Sending && forall h <- s.handlers :: !Holds(s.handlers[h])
  }

  /** As long as some handler holds a draft in `sending`, it may still leave that status. */
  lemma {:induction false} HolderCanFinish(s: State, h: Handler) returns (events: seq<Event>)
    requires Reachable(s) && s.status == Sending && h in s.handlers && Holds(s.handlers[h])
    ensures Run(s, events).status != Sending
    decreases match s.handlers[h] case Loading => 3 case Composing => 2 case Accepted => 1 case _ => 0
  {
    ReachableInv(s);
    assert HolderOk(s, h);
    var e := match s.handlers[h]
             case Loading => Load(h, true)
             case Composing => Send(h, Taken)
             case Accepted => SentMark(h, None)
             case _ => FailMark(h, true);
    ReachableNext(s, e);
    var rest: seq<Event> := [];
    if Next(s, e).status == Sending {
      rest := HolderCanFinish(Next(s, e), h);
    }
    events := [e] + rest;
    RunOneFirst(s, e, rest);
  }

  /** A draft in `sending` stays there in every continuation exactly when no handler holds it. */
  lemma {:induction false} StrandedExactly(s: State)
    requires Reachable(s) && s.status == Sending
    ensures (forall events: seq<Event> :: Run(s, events).status == Sending) <==> IsStranded(s)
  {
    if IsStranded(s) {
      forall events: seq<Event> ensures Run(s, events).status == Sending {
        SettledForever(s, events);
      }
    } else {
      var h :| h in s.handlers && Holds(s.handlers[h]);
      var events := HolderCanFinish(s, h);
    }
  }

  /** And it gets there exactly by a failed load, a failed `markFailed`, or the death of its handler. */
  lemma {:induction false} StrandingEventsExactly(s: State, h: Handler, e: Event)
    requires Reachable(s) && s.status == Sending && h in s.handlers && Holds(s.handlers[h])
    ensures IsStranded(Next(s, e)) <==>
            || e == Crash(h)
            || (e == Load(h, false) && s.handlers[h].Loading?)
            || (e == FailMark(h, false) && s.handlers[h].Failing?)
  {
    ReachableInv(s);
    assert HolderOk(s, h);
    var t := Next(s, e);
    forall g <- t.handlers | g != h ensures !Holds(t.handlers[g]) {
      if g in s.handlers {
        assert !Holds(s.handlers[g]);
      }
    }
    if e.Cancel? || e.h != h {
      assert h in t.handlers && Holds(t.handlers[h]);
    } else {
      assert IsStranded(t) <==> t.status == Sending && !Holds(t.handlers[h]);
      match e
      case Start(_) =>
      case Claim(_, _) =>
      case Load(_, _) =>
      case Send(_, _) =>
      case SentMark(_, _) =>
      case Confirm(_, _) =>
      case FailMark(_, _) =>
      case Crash(_) =>
    }
  }

  /** A failure of `accounts.load`, which no `catch` covers, leaves the draft in `sending` for good. */
  lemma {:induction false} LoadFailureStrands(s: State, h: Handler, events: seq<Event>)
    requires Reachable(s) && IsAt(s, h, Loading)
    ensures var t := Run(Next(s, Load(h, false)), events); t.status == Sending && t.calls == s.calls
  {
    ReachableInv(s);
    assert HolderOk(s, h);
    SettledForever(Next(s, Load(h, false)), events);
  }

  lemma {:induction false} AStrandedDraft() returns (s: State)
    ensures Reachable(s) && IsStranded(s) && s.calls == 0
  {
    assert Run(Initial, []) == Initial;
    s := Initial;
    ReachableNext(s, Start(0)); s := Next(s, Start(0));
    ReachableNext(s, Claim(0, true)); s := Next(s, Claim(0, true));
    ReachableNext(s, Load(0, false)); s := Next(s, Load(0, false));
  }
}
