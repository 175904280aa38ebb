/** How a presented token fares, and what signing out and marking a second factor come to, over whole runs. */
module SessionEndings {
  import opened Basics
  import opened Sessions

  // ------------------------------------------------------------ rows over time

  /** Rows stay; when they expire is settled at birth, and what was revoked or replaced stays so. */
  ghost predicate Ages(s: State, t: State) {
    forall i {:trigger t.rows[i]} {:trigger s.rows[i]} :: i in s.rows ==>
      && i in t.rows && t.rows[i].expiresAt == s.rows[i].expiresAt
      && (s.rows[i].revoked ==> t.rows[i].revoked && t.rows[i].replacedBy == s.rows[i].replacedBy)
      && (s.rows[i].replacedBy.Some? ==> t.rows[i].replacedBy == s.rows[i].replacedBy)
  }

  lemma {:induction false} StepAges(s: State, e: Event)
    requires Bounds(s)
    ensures Ages(s, Next(s, e))
  {
  }

  lemma {:induction false} RunAges(s: State, events: seq<Event>)
    requires Inv(s)
    ensures Ages(s, Run(s, events))
    decreases |events|
  {
    hide Inv, Next, Bounds;
    if events != [] {
      var before := events[..|events| - 1];
      RunAges(s, before);
      RunKeepsInv(s, before);
      BoundsOf(Run(s, before));
      StepAges(Run(s, before), events[|events| - 1]);
    }
  }

  lemma {:induction false} BoundsOf(s: State)
    requires Inv(s)
    ensures Bounds(s)
  {
  }

  // ------------------------------------------------------------ what a look settles

  lemma FinishedStep(s: State, e: Event, q: Req)
    requires q in s.reqs && s.reqs[q].Finished?
    ensures q in Next(s, e).reqs && Next(s, e).reqs[q] == s.reqs[q]
  {
  }

  lemma {:induction false} FinishedStays(s: State, events: seq<Event>, q: Req)
    requires q in s.reqs && s.reqs[q].Finished?
    ensures q in Run(s, events).reqs && Run(s, events).reqs[q] == s.reqs[q]
    decreases |events|
  {
    hide Next;
    if events != [] {
      var before := events[..|events| - 1];
      FinishedStays(s, before, q);
      FinishedStep(Run(s, before), events[|events| - 1], q);
    }
  }

  /** A request that is to revoke does so, or dies. */
  predicate Rejects(pc: Pc) {
    pc.Revoking? || pc.Crashed? || (pc.Finished? && pc.outcome.Reuse?)
  }

  lemma RejectionStep(s: State, e: Event, q: Req)
    requires q in s.reqs && Rejects(s.reqs[q])
    ensures q in Next(s, e).reqs && Rejects(Next(s, e).reqs[q])
  {
  }

  lemma {:induction false} RejectionStays(s: State, events: seq<Event>, q: Req)
    requires q in s.reqs && Rejects(s.reqs[q])
    ensures q in Run(s, events).reqs && Rejects(Run(s, events).reqs[q])
    decreases |events|
  {
    hide Next, Rejects;
    if events != [] {
      var before := events[..|events| - 1];
      RejectionStays(s, before, q);
      RejectionStep(Run(s, before), events[|events| - 1], q);
    }
  }

  /**
   * An expired token is refused at the look, which writes nothing, and never rotated afterwards. It
   * is refused as expired exactly if it was neither replaced nor revoked; otherwise it is reuse.
   */
  lemma {:induction false} ExpiredTokenIsRefused(s: State, events: seq<Event>, q: Req, id: Id, now: Time)
    requires Reachable(s) && q in s.reqs && s.reqs[q] == Presented(Minted(id))
    requires id in s.rows && s.rows[id].expiresAt <= now
    ensures var looked := Next(s, Look(q, now));
            var t := Run(looked, events);
            && looked == s.(reqs := looked.reqs)
            && q in t.reqs && !(t.reqs[q].Finished? && t.reqs[q].outcome.Rotated?)
            && (t.reqs[q] == Finished(Expired(id)) <==> s.rows[id].replacedBy.None? && !s.rows[id].revoked)
            && (t.reqs[q] != Finished(Expired(id)) ==> Rejects(t.reqs[q]))
  {
    var looked := Next(s, Look(q, now));
    if s.rows[id].replacedBy.None? && !s.rows[id].revoked {
      FinishedStays(looked, events, q);
    } else {
      RejectionStays(looked, events, q);
    }
  }

  /** A token that was replaced or revoked when it is looked at is rejected as reuse, expired or not. */
  lemma {:induction false} SpentTokenIsRejected(s: State, events: seq<Event>, q: Req, id: Id, now: Time)
    requires Reachable(s) && q in s.reqs && s.reqs[q] == Presented(Minted(id))
    requires id in s.rows && (s.rows[id].replacedBy.Some? || s.rows[id].revoked)
    ensures var t := Run(Next(s, Look(q, now)), events); q in t.reqs && Rejects(t.reqs[q])
  {
    RejectionStays(Next(s, Look(q, now)), events, q);
  }

  /** A token that was never issued is unknown, and presenting it changes no table. */
  lemma {:induction false} ForgedTokenIsUnknown(s: State, events: seq<Event>, q: Req, now: Time)
    requires q in s.reqs && s.reqs[q] == Presented(Forged)
    ensures var looked := Next(s, Look(q, now));
            && looked == s.(reqs := s.reqs[q := Finished(Unknown)])
            && q in Run(looked, events).reqs && Run(looked, events).reqs[q] == Finished(Unknown)
  {
    FinishedStays(Next(s, Look(q, now)), events, q);
  }

  // ------------------------------------------------------------ signing in

  /** A sign-in that is answered hands out one live token of a family of its own, without a second factor. */
  lemma {:induction false} SignInStartsAFamily(s: State, req: Req, user: User, expiresAt: Time)
    requires Reachable(s) && req !in s.reqs
    ensures var t := Next(Next(s, SignIn(req, user, expiresAt)), Answer(req));
            var id, family := s.nextId, s.nextFamily;
            && req in t.reqs && t.reqs[req] == Finished(LoggedIn(id)) && t.delivered == s.delivered + {id}
            && id !in s.rows && t.rows == s.rows[id := Row(user, family, expiresAt, false, None, None)]
            && family !in s.logins && t.logins == s.logins[family := Login(user, id)]
            && forall i <- s.rows :: s.rows[i].family != family
  {
    ReachableInv(s);
    forall i <- s.rows ensures s.rows[i].family != s.nextFamily {
      assert RowOk(s, i);
    }
  }

  // ------------------------------------------------------------ signing out

  /** Which requests can have rotated a row since it was revoked: the one that had claimed it before. */
  predicate NoNewRotation(s: State, t: State, id: Id)
    requires id in s.rows
  {
    forall q <- t.reqs :: t.reqs[q].Finished? && t.reqs[q].outcome.Rotated? && t.reqs[q].outcome.parent == id ==>
      s.rows[id].replacedBy == Some(t.reqs[q].outcome.child)
  }

  lemma {:induction false} RevokedIsNotRotated(s: State, events: seq<Event>, id: Id)
    requires Reachable(s) && id in s.rows && s.rows[id].revoked
    ensures var t := Run(s, events);
            && id in t.rows && t.rows[id].revoked && t.rows[id].replacedBy == s.rows[id].replacedBy
  {
    ReachableInv(s);
    RunAges(s, events);
  }

  lemma {:induction false} RotatedWasClaimed(t: State, q: Req)
    requires Inv(t) && q in t.reqs && t.reqs[q].Finished? && t.reqs[q].outcome.Rotated?
    ensures var p := t.reqs[q].outcome.parent; p in t.rows && t.rows[p].replacedBy == Some(t.reqs[q].outcome.child)
  {
    assert PcOk(t, q, t.reqs[q]);
  }

  /**
   * Signing out one session revokes that row alone, if it is the user's. From then on it stays
   * revoked and unreplaced unless it was replaced before, so whoever presents its token is not
   * given another.
   */
  lemma {:induction false} SignedOutTokenIsOver(s: State, events: seq<Event>, user: User, id: Id)
    requires Reachable(s) && id in s.rows
    ensures var out := Next(s, SignOut(user, id));
            var t := Run(out, events);
            && out == s.(rows := out.rows) && out.rows.Keys == s.rows.Keys
            && (forall i <- s.rows ::
                  out.rows[i] == if i == id && s.rows[i].user == user then s.rows[i].(revoked := true) else s.rows[i])
            && (s.rows[id].user == user ==>
                  && id in t.rows && t.rows[id].revoked && t.rows[id].replacedBy == s.rows[id].replacedBy
                  && NoNewRotation(s, t, id))
  {
    var out := Next(s, SignOut(user, id));
    ReachableNext(s, SignOut(user, id));
    ReachableInv(out);
    RunKeepsInv(out, events);
    hide Reachable, Run, Inv;
    if s.rows[id].user == user {
      RevokedIsNotRotated(out, events, id);
      var t := Run(out, events);
      forall q <- t.reqs | t.reqs[q].Finished? && t.reqs[q].outcome.Rotated? && t.reqs[q].outcome.parent == id
        ensures s.rows[id].replacedBy == Some(t.reqs[q].outcome.child)
      {
        RotatedWasClaimed(t, q);
      }
    }
  }

  /** Signing out a family revokes exactly the user's rows of it, and ends it if it is one of the user's logins. */
  lemma {:induction false} SignedOutFamilyIsOver(s: State, events: seq<Event>, user: User, family: Family)
    requires Reachable(s)
    ensures var out := Next(s, SignOutFamily(user, family));
            && out.rows.Keys == s.rows.Keys
            && (forall i <- s.rows ::
                  out.rows[i] == if s.rows[i].user == user && s.rows[i].family == family
                                 then s.rows[i].(revoked := true) else s.rows[i])
            && (family in s.logins && s.logins[family].user == user ==> IsOver(out, Run(out, events), family))
  {
    hide Run, Inv, Reachable, IsOver;
    var out := Next(s, SignOutFamily(user, family));
    ReachableNext(s, SignOutFamily(user, family));
    if family in s.logins && s.logins[family].user == user {
      RevokedFamilyIsOver(out, events, family);
    }
  }

  // ------------------------------------------------------------ the second factor

  predicate MarksAgain(e: Event, id: Id) {
    e.MarkMfa? && e.id == id
  }

  lemma MarkStep(s: State, e: Event, id: Id)
    requires Bounds(s) && id in s.rows && !MarksAgain(e, id)
    ensures id in Next(s, e).rows && Next(s, e).rows[id].mfaAt == s.rows[id].mfaAt
  {
  }

  lemma {:induction false} MarkStays(s: State, events: seq<Event>, id: Id)
    requires Inv(s) && id in s.rows && forall e <- events :: !MarksAgain(e, id)
    ensures id in Run(s, events).rows && Run(s, events).rows[id].mfaAt == s.rows[id].mfaAt
    decreases |events|
  {
    hide Inv, Next, Bounds, MarksAgain;
    if events != [] {
      var before := events[..|events| - 1];
      MarkStays(s, before, id);
      RunKeepsInv(s, before);
      BoundsOf(Run(s, before));
      MarkStep(Run(s, before), events[|events| - 1], id);
    }
  }

  /** A second factor is recorded on the user's unrevoked session and no other, and kept until it is marked again. */
  lemma {:induction false} MarkedSessionKeepsIt(s: State, events: seq<Event>, user: User, id: Id, at: Time)
    requires Reachable(s) && id in s.rows && forall e <- events :: !MarksAgain(e, id)
    ensures var marked := Next(s, MarkMfa(user, id, at));
            var valid := s.rows[id].user == user && !s.rows[id].revoked;
            && marked.rows == (if valid then s.rows[id := s.rows[id].(mfaAt := Some(at))] else s.rows)
            && id in Run(marked, events).rows
            && Run(marked, events).rows[id].mfaAt == (if valid then Some(at) else s.rows[id].mfaAt)
  {
    var marked := Next(s, MarkMfa(user, id, at));
    ReachableNext(s, MarkMfa(user, id, at));
    ReachableInv(marked);
    MarkStays(marked, events, id);
  }
}
