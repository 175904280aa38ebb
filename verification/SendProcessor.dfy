/**
 * `SendProcessor.handle` on the draft row it claims.
 *
 * The repository's four conditional or unconditional updates are methods on the row;
 * `Handle` calls them in the program's order, with every other handler and the user's
 * cancel free to run at each `await`. How each of its own calls ends is an input.
 */
module SendProcessor {
  import opened Basics
  import opened Sending

  datatype Exit = Skipped | Completed | Threw

  predicate IsBy(e: Event, h: Handler) {
    !e.Cancel? && e.h == h
  }

  /** What one handler did, in order. */
  function Own(events: seq<Event>, h: Handler): seq<Event>
    decreases |events|
  {
    if events == [] then []
    else
      var last := events[|events| - 1];
      Own(events[..|events| - 1], h) + (if IsBy(last, h) then [last] else [])
  }

  /** Whether the last of these events found the draft queued. */
  predicate FoundQueued(s: State, events: seq<Event>) {
    events != [] && Run(s, events[..|events| - 1]).status == Queued
  }

  lemma {:induction false} Extend(s: State, events: seq<Event>, e: Event, h: Handler)
    ensures Run(s, events + [e]) == Next(Run(s, events), e)
    ensures Own(events + [e], h) == Own(events, h) + (if IsBy(e, h) then [e] else [])
  {
    assert (events + [e])[..|events|] == events;
  }

  lemma {:induction false} OthersAppend(s: State, xs: seq<Event>, ys: seq<Event>, h: Handler)
    requires forall e <- ys :: !IsBy(e, h)
    ensures Run(s, xs + ys) == Run(Run(s, xs), ys)
    ensures Own(xs + ys, h) == Own(xs, h)
    decreases |ys|
  {
    if ys == [] {
      assert xs + ys == xs;
    } else {
      var zs := ys[..|ys| - 1];
      assert (xs + ys)[..|xs + ys| - 1] == xs + zs;
      OthersAppend(s, xs, zs, h);
    }
  }

  lemma {:induction false} OtherLeavesHandler(s: State, e: Event, h: Handler)
    requires !IsBy(e, h)
    ensures forall pc :: IsAt(Next(s, e), h, pc) <==> IsAt(s, h, pc)
  {
  }

  lemma {:induction false} OthersLeaveHandler(s: State, events: seq<Event>, h: Handler)
    requires forall e <- events :: !IsBy(e, h)
    ensures forall pc :: IsAt(Run(s, events), h, pc) <==> IsAt(s, h, pc)
    decreases |events|
  {
    if events != [] {
      OthersLeaveHandler(s, events[..|events| - 1], h);
      OtherLeavesHandler(Run(s, events[..|events| - 1]), events[|events| - 1], h);
    }
  }

  // ------------------------------------------------------------ how the calls end

  /** A fault says whether its error is retryable; `marks` is whether `markFailed` itself succeeds. */
  datatype World = World(
    decrypts: bool, loads: bool, attempt: Attempt, sentFault: Option<bool>, confirmFault: Option<bool>, marks: bool)

  predicate Completes(w: World) {
    w.loads && w.attempt.Taken? && w.sentFault.None? && w.confirmFault.None?
  }

  /** What follows the provider's acceptance: an error in either step lands in the same `catch`. */
  function AfterAcceptance(h: Handler, w: World): seq<Event> {
    if w.sentFault.Some? then [SentMark(h, w.sentFault), FailMark(h, w.marks)]
    else if w.confirmFault.Some? then [SentMark(h, None), Confirm(h, w.confirmFault), FailMark(h, w.marks)]
    else [SentMark(h, None), Confirm(h, None)]
  }

  /** What follows the load, inside the `try`. */
  function AfterLoad(h: Handler, w: World): seq<Event> {
    [Send(h, w.attempt)] + if w.attempt.Taken? then AfterAcceptance(h, w) else [FailMark(h, w.marks)]
  }

  /** What follows the claim: the load is outside the `try`. */
  function AfterClaim(h: Handler, w: World): seq<Event> {
    [Load(h, w.loads)] + if w.loads then AfterLoad(h, w) else []
  }

  /**
   * A handler marks a failure exactly as its last step, and exactly if something failed after
   * the load: a failed load is not marked. It completes exactly by the steps of the program.
   */
  lemma {:induction false} FailuresAreMarkedOnce(h: Handler, w: World)
    ensures var own := AfterClaim(h, w);
            && own != []
            && (forall i :: 0 <= i < |own| ==>
                  (own[i].FailMark? <==> i == |own| - 1 && w.loads && !Completes(w)))
            && (Completes(w) <==> own == [Load(h, true), Send(h, Taken), SentMark(h, None), Confirm(h, None)])
  {
    var own := AfterClaim(h, w);
    assert own[0] == Load(h, w.loads);
    if w.loads {
      assert own[1] == Send(h, w.attempt);
      if w.attempt.Taken? {
        assert own[2] == SentMark(h, w.sentFault);
        assert w.sentFault.None? ==> own[3] == Confirm(h, w.confirmFault);
      }
    }
  }

  /** Where a handler is after its attempt. */
  function AfterSend(attempt: Attempt): Pc {
    match attempt
    case NotAttempted(retryable) => Failing(retryable, false)
    case Refused(retryable) => Failing(retryable, false)
    case Taken => Accepted
    case TakenUnheard(retryable) => Failing(retryable, true)
  }

  /** Whether the failure that ends a job may be tried again. */
  predicate MayRetry(w: World) {
    match w.attempt
    case NotAttempted(retryable) => retryable
    case Refused(retryable) => retryable
    case TakenUnheard(retryable) => retryable
    case Taken => if w.sentFault.Some? then w.sentFault.value else w.confirmFault == Some(true)
  }

  /** What becomes of a queued draft in a job that nobody disturbs. */
  function Settled(w: World): Status {
    if !w.loads then Sending
    else if Completes(w) then Sent
    else if w.marks then (if MayRetry(w) then Queued else Failed)
    else if w.attempt.Taken? && w.sentFault.None? then Sent
    else Sending
  }

  lemma {:induction false} AfterAcceptanceAlone(s: State, h: Handler, w: World)
    requires IsAt(s, h, Accepted) && s.status == Sending && w.attempt.Taken? && w.loads
    ensures var t := Run(s, AfterAcceptance(h, w));
            t.status == Settled(w) && t.calls == s.calls && t.taken == s.taken && IsAt(t, h, Over)
  {
    hide Own;
    var marked := [SentMark(h, w.sentFault)];
    Extend(s, [], marked[0], h);
    assert [] + marked == marked;
    if w.sentFault.Some? {
      Extend(s, marked, FailMark(h, w.marks), h);
      assert marked + [FailMark(h, w.marks)] == AfterAcceptance(h, w);
    } else {
      var confirmed := marked + [Confirm(h, w.confirmFault)];
      Extend(s, marked, Confirm(h, w.confirmFault), h);
      if w.confirmFault.Some? {
        Extend(s, confirmed, FailMark(h, w.marks), h);
        assert confirmed + [FailMark(h, w.marks)] == AfterAcceptance(h, w);
      } else {
        assert confirmed == AfterAcceptance(h, w);
      }
    }
  }

  lemma {:induction false} AfterLoadAlone(s: State, h: Handler, w: World)
    requires IsAt(s, h, Composing) && s.status == Sending && w.loads
    ensures var t := Run(s, AfterLoad(h, w));
            && t.status == Settled(w) && IsAt(t, h, Over)
            && t.calls == s.calls + (if w.attempt.NotAttempted? then 0 else 1)
            && t.taken == s.taken + (if w.attempt.Taken? || w.attempt.TakenUnheard? then 1 else 0)
  {
    hide Own;
    var sent := [Send(h, w.attempt)];
    Extend(s, [], sent[0], h);
    assert [] + sent == sent;
    var u := Next(s, sent[0]);
    if w.attempt.Taken? {
      AfterAcceptanceAlone(u, h, w);
      RunOneFirst(s, sent[0], AfterAcceptance(h, w));
    } else {
      Extend(s, sent, FailMark(h, w.marks), h);
    }
  }

  /**
   * A job that nobody disturbs calls the provider at most once, and leaves a queued draft sent, queued
   * again or failed, as its last error says; it stays in `sending` exactly if the account did not load,
   * or the failure was not marked and neither was the acceptance.
   */
  lemma {:induction false} AloneIsSettled(s: State, h: Handler, w: World)
    requires h !in s.handlers && s.status == Queued
    ensures var t := Run(s, [Start(h), Claim(h, true)] + AfterClaim(h, w));
            && t.status == Settled(w) && IsAt(t, h, Over)
            && t.calls == s.calls + (if w.loads && !w.attempt.NotAttempted? then 1 else 0)
            && t.taken == s.taken + (if w.loads && (w.attempt.Taken? || w.attempt.TakenUnheard?) then 1 else 0)
  {
    var u := Next(Next(s, Start(h)), Claim(h, true));
    var later := if w.loads then AfterLoad(h, w) else [];
    StartedIsLoading(s, h);
    LoadedIsComposing(u, h, w);
    hide AfterLoad, Settled, Next, Run;
    ThreeFirst(s, Start(h), Claim(h, true), Load(h, w.loads), later);
    assert [Start(h), Claim(h, true), Load(h, w.loads)] + later == [Start(h), Claim(h, true)] + AfterClaim(h, w);
    if w.loads {
      AfterLoadAlone(Next(u, Load(h, w.loads)), h, w);
    } else {
      UnloadedStays(w, Next(u, Load(h, w.loads)));
    }
  }

  lemma {:induction false} ThreeFirst(s: State, a: Event, b: Event, c: Event, later: seq<Event>)
    ensures Run(s, [a, b, c] + later) == Run(Next(Next(Next(s, a), b), c), later)
  {
    hide Next, Run;
    RunOneFirst(s, a, [b, c] + later);
    RunOneFirst(Next(s, a), b, [c] + later);
    RunOneFirst(Next(Next(s, a), b), c, later);
    assert [b] + ([c] + later) == [b, c] + later && [a] + ([b, c] + later) == [a, b, c] + later;
  }

  lemma StartedIsLoading(s: State, h: Handler)
    requires h !in s.handlers && s.status == Queued
    ensures var u := Next(Next(s, Start(h)), Claim(h, true));
            IsAt(u, h, Loading) && u.status == Sending && u.calls == s.calls && u.taken == s.taken
  {
  }

  lemma LoadedIsComposing(u: State, h: Handler, w: World)
    requires IsAt(u, h, Loading) && u.status == Sending
    ensures var v := Next(u, Load(h, w.loads));
            && IsAt(v, h, if w.loads then Composing else Over)
            && v.status == Sending && v.calls == u.calls && v.taken == u.taken
  {
  }

  lemma UnloadedStays(w: World, s: State)
    requires !w.loads
    ensures Settled(w) == Sending && Run(s, []) == s
  {
  }

  class Draft {
    var status: Status
    // What happened, for specification only.
    var handlers: map<Handler, Pc>
    var calls: nat
    var taken: nat
    var requeues: nat
    var resends: nat
    var takenSinceQueued: bool

    function View(): State
      reads this
    {
      State(status, handlers, calls, taken, requeues, resends, takenSinceQueued)
    }

    /** `createForSend`: the row starts out queued. */
    constructor ()
      ensures View() == Initial
    {
      status, handlers := Queued, map[];
      calls, taken, requeues, resends, takenSinceQueued := 0, 0, 0, 0, false;
    }

    /** Whichever attempt matches first flips the row; a body that does not decrypt rolls that back. */
    method ClaimForSending(decrypts: bool) returns (claimed: bool)
      modifies `status
      ensures claimed <==> old(status) == Queued && decrypts
      ensures status == if claimed then Sending else old(status)
    {
      claimed := false;
      if status == Queued {
        var before := status;
        status := Sending;
        if decrypts {
          claimed := true;
        } else {
          status := before;
        }
      }
    }

    method CancelIfQueued() returns (cancelled: bool)
      modifies `status
      ensures cancelled <==> old(status) == Queued
      ensures View() == Next(old(View()), Cancel)
    {
      cancelled := status == Queued;
      if cancelled {
        status := Cancelled;
      }
    }

    method MarkSent()
      modifies `status
      ensures status == Sent
    {
      status := Sent;
    }

    /** No guard on the status: whatever it was, it is overwritten. */
    method MarkFailed(retryable: bool)
      modifies `status
      ensures status == if retryable then Queued else Failed
    {
      status := if retryable then Queued else Failed;
    }

    method At(h: Handler, pc: Pc)
      modifies `handlers
      ensures handlers == old(handlers)[h := pc]
    {
      handlers := handlers[h := pc];
    }

    /** An `await`: every other handler, and the user, for as long as they like. */
    method Wait(h: Handler, ghost before: State, trace: seq<Event>) returns (longer: seq<Event>)
      requires View() == Run(before, trace)
      modifies this
      ensures View() == Run(before, longer) && Own(longer, h) == Own(trace, h)
      ensures forall pc :: IsAt(old(View()), h, pc) <==> IsAt(View(), h, pc)
    {
      ghost var s := View();
      var events: seq<Event> := *;
      if exists e <- events :: IsBy(e, h) {
        events := [];
      }
      var t := Run(View(), events);
      status, handlers := t.status, t.handlers;
      calls, taken, requeues, resends := t.calls, t.taken, t.requeues, t.resends;
      takenSinceQueued := t.takenSinceQueued;
      OthersLeaveHandler(s, events, h);
      OthersAppend(before, trace, events, h);
      longer := trace + events;
    }

    /** The `catch`: records the failure, which may itself fail, and rethrows. */
    method Caught(h: Handler, retryable: bool, accepted: bool, w: World, ghost before: State, trace: seq<Event>)
        returns (longer: seq<Event>)
      requires View() == Run(before, trace) && IsAt(View(), h, Failing(retryable, accepted))
      modifies this
      ensures View() == Run(before, longer) && IsAt(View(), h, Over)
      ensures Own(longer, h) == Own(trace, h) + [FailMark(h, w.marks)]
    {
      longer := Wait(h, before, trace);
      ghost var s := View();
      if w.marks {
        MarkFailed(retryable);
        if retryable {
          requeues, takenSinceQueued := requeues + 1, false;
          resends := resends + if accepted then 1 else 0;
        }
      }
      At(h, Over);
      Extend(before, longer, FailMark(h, w.marks), h);
      assert View() == Next(s, FailMark(h, w.marks));
      longer := longer + [FailMark(h, w.marks)];
    }

    /** Collects the files and hands the message to the provider. */
    method SendMessage(h: Handler, attempt: Attempt, ghost before: State, trace: seq<Event>)
        returns (longer: seq<Event>)
      requires View() == Run(before, trace) && IsAt(View(), h, Composing)
      modifies this
      ensures View() == Run(before, longer) && Own(longer, h) == Own(trace, h) + [Send(h, attempt)]
      ensures IsAt(View(), h, AfterSend(attempt))
    {
      hide Own;
      longer := Wait(h, before, trace);
      ghost var s := View();
      if !attempt.NotAttempted? {
        calls := calls + 1;
      }
      if attempt.Taken? || attempt.TakenUnheard? {
        taken, takenSinceQueued := taken + 1, true;
      }
      At(h, AfterSend(attempt));
      assert View() == Next(s, Send(h, attempt));
      hide Next, Run;
      Extend(before, longer, Send(h, attempt), h);
      longer := longer + [Send(h, attempt)];
    }

    /** From the provider's answer to the confirmation; an error in either step lands in the same `catch`. */
    method MarkAndConfirm(h: Handler, w: World, ghost before: State, trace: seq<Event>)
        returns (exit: Exit, longer: seq<Event>)
      requires View() == Run(before, trace) && IsAt(View(), h, Accepted)
      modifies this
      ensures View() == Run(before, longer) && IsAt(View(), h, Over)
      ensures exit == if w.sentFault.None? && w.confirmFault.None? then Completed else Threw
      ensures Own(longer, h) == Own(trace, h) + AfterAcceptance(h, w)
    {
      hide Own;
      longer := Wait(h, before, trace);
      ghost var s := View();
      if w.sentFault.Some? {
        At(h, Failing(w.sentFault.value, true));
      } else {
        MarkSent();
        At(h, Confirming);
      }
      assert View() == Next(s, SentMark(h, w.sentFault));
      hide Next, Run;
      Extend(before, longer, SentMark(h, w.sentFault), h);
      longer := longer + [SentMark(h, w.sentFault)];
      if w.sentFault.Some? {
        longer := Caught(h, w.sentFault.value, true, w, before, longer);
        exit := Threw;
      } else {
        exit, longer := ConfirmSent(h, w, before, longer);
      }
    }

    method ConfirmSent(h: Handler, w: World, ghost before: State, trace: seq<Event>)
        returns (exit: Exit, longer: seq<Event>)
      requires View() == Run(before, trace) && IsAt(View(), h, Confirming)
      modifies this
      ensures View() == Run(before, longer) && IsAt(View(), h, Over)
      ensures exit == if w.confirmFault.None? then Completed else Threw
      ensures Own(longer, h) ==
              Own(trace, h) + [Confirm(h, w.confirmFault)] + if w.confirmFault.Some? then [FailMark(h, w.marks)] else []
    {
      hide Own;
      longer := Wait(h, before, trace);
      ghost var s := View();
      At(h, if w.confirmFault.Some? then Failing(w.confirmFault.value, true) else Over);
      assert View() == Next(s, Confirm(h, w.confirmFault));
      hide Next, Run;
      Extend(before, longer, Confirm(h, w.confirmFault), h);
      longer := longer + [Confirm(h, w.confirmFault)];
      exit := Completed;
      if w.confirmFault.Some? {
        longer := Caught(h, w.confirmFault.value, true, w, before, longer);
        exit := Threw;
      }
    }

    /**
     * `handle`: claim, load, send, mark, confirm. `trace` is everything that happened
     * meanwhile; `Own(trace, h)` is what this attempt did: it found nothing to claim, its
     * claim was rolled back, or it claimed the draft and took the steps of `AfterClaim`.
     */
    method Handle(h: Handler, w: World) returns (exit: Exit, trace: seq<Event>)
      requires h !in handlers
      modifies this
      ensures View() == Run(old(View()), trace) && IsAt(View(), h, Over)
      ensures || (exit == Skipped && Own(trace, h) == [Start(h), Claim(h, true)]
                  && !FoundQueued(old(View()), trace))
              || (exit == Threw && !w.decrypts && Own(trace, h) == [Start(h), Claim(h, false)]
                  && FoundQueued(old(View()), trace))
              || (w.decrypts && exit == (if Completes(w) then Completed else Threw)
                  && Own(trace, h) == [Start(h), Claim(h, true)] + AfterClaim(h, w))
    {
      hide Next, Run, Own, AfterClaim, FoundQueued;
      ghost var before := View();
      trace := Begin(h);
      var claimed, wasQueued;
      claimed, wasQueued, trace := Claims(h, w.decrypts, before, trace);
      if !claimed {
        return if wasQueued then Threw else Skipped, trace;
      }
      exit, trace := LoadAndSend(h, w, before, trace);
    }

    method Begin(h: Handler) returns (trace: seq<Event>)
      requires h !in handlers
      modifies `handlers
      ensures View() == Run(old(View()), trace) && IsAt(View(), h, Started) && Own(trace, h) == [Start(h)]
    {
      At(h, Started);
      trace := [Start(h)];
      assert trace[..0] == [];
    }

    /** The claim, with whatever happens before it. */
    method Claims(h: Handler, decrypts: bool, ghost before: State, trace: seq<Event>)
        returns (claimed: bool, wasQueued: bool, longer: seq<Event>)
      requires View() == Run(before, trace) && IsAt(View(), h, Started)
      modifies this
      ensures View() == Run(before, longer) && IsAt(View(), h, if claimed then Loading else Over)
      ensures claimed <==> wasQueued && decrypts
      ensures wasQueued <==> FoundQueued(before, longer)
      ensures Own(longer, h) == Own(trace, h) + [Claim(h, wasQueued ==> decrypts)]
    {
      longer := Wait(h, before, trace);
      ghost var s := View();
      wasQueued := status == Queued;
      claimed := ClaimForSending(decrypts);
      At(h, if claimed then Loading else Over);
      assert View() == Next(s, Claim(h, wasQueued ==> decrypts));
      Extend(before, longer, Claim(h, wasQueued ==> decrypts), h);
      assert (longer + [Claim(h, wasQueued ==> decrypts)])[..|longer|] == longer;
      longer := longer + [Claim(h, wasQueued ==> decrypts)];
    }

    /** The load, outside the `try`, and then what is inside it. */
    method LoadAndSend(h: Handler, w: World, ghost before: State, trace: seq<Event>)
        returns (exit: Exit, longer: seq<Event>)
      requires View() == Run(before, trace) && IsAt(View(), h, Loading)
      modifies this
      ensures View() == Run(before, longer) && IsAt(View(), h, Over)
      ensures exit == if Completes(w) then Completed else Threw
      ensures Own(longer, h) == Own(trace, h) + AfterClaim(h, w)
    {
      hide Own, Next, Run, AfterLoad;
      longer := LoadAccount(h, w.loads, before, trace);
      if w.loads {
        exit, longer := TryToSend(h, w, before, longer);
      } else {
        exit := Threw;
      }
    }

    method LoadAccount(h: Handler, ok: bool, ghost before: State, trace: seq<Event>) returns (longer: seq<Event>)
      requires View() == Run(before, trace) && IsAt(View(), h, Loading)
      modifies this
      ensures View() == Run(before, longer) && IsAt(View(), h, if ok then Composing else Over)
      ensures Own(longer, h) == Own(trace, h) + [Load(h, ok)]
    {
      hide Own;
      longer := Wait(h, before, trace);
      ghost var s := View();
      At(h, if ok then Composing else Over);
      assert View() == Next(s, Load(h, ok));
      Extend(before, longer, Load(h, ok), h);
      longer := longer + [Load(h, ok)];
    }

    /** The `try` and the `catch`. */
    method TryToSend(h: Handler, w: World, ghost before: State, trace: seq<Event>)
        returns (exit: Exit, longer: seq<Event>)
      requires View() == Run(before, trace) && IsAt(View(), h, Composing) && w.loads
      modifies this
      ensures View() == Run(before, longer) && IsAt(View(), h, Over)
      ensures exit == if Completes(w) then Completed else Threw
      ensures Own(longer, h) == Own(trace, h) + AfterLoad(h, w)
    {
      hide Own, Next, Run, AfterAcceptance;
      longer := SendMessage(h, w.attempt, before, trace);
      match w.attempt
      case Taken =>
        exit, longer := MarkAndConfirm(h, w, before, longer);
      case NotAttempted(retryable) =>
        longer := Caught(h, retryable, false, w, before, longer);
        exit := Threw;
      case Refused(retryable) =>
        longer := Caught(h, retryable, false, w, before, longer);
        exit := Threw;
      case TakenUnheard(retryable) =>
        longer := Caught(h, retryable, true, w, before, longer);
        exit := Threw;
    }
  }
}
