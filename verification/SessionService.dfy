/**
 * `SessionService` as the object that owns the sessions table.
 *
 * Each repository call is one committed update of `rows`. Between any two of them
 * `Others` lets every other request run as far as it likes, so `Rotate` is the method
 * under arbitrary interference; it is proved to be a run of the machine in `Sessions`.
 */
module SessionService {
  import opened Basics
  import opened Sessions
  import opened SessionEndings

  lemma {:induction false} OtherLeavesRequest(s: State, e: Event, req: Req)
    requires Actor(e) != req
    ensures (req in Next(s, e).reqs) == (req in s.reqs)
    ensures req in s.reqs ==> Next(s, e).reqs[req] == s.reqs[req]
  {
  }

  lemma {:induction false} OthersLeaveRequest(s: State, events: seq<Event>, req: Req)
    requires forall e <- events :: Actor(e) != req
    ensures (req in Run(s, events).reqs) == (req in s.reqs)
    ensures req in s.reqs ==> Run(s, events).reqs[req] == s.reqs[req]
    decreases |events|
  {
    if events != [] {
      OthersLeaveRequest(s, events[..|events| - 1], req);
      OtherLeavesRequest(Run(s, events[..|events| - 1]), events[|events| - 1], req);
    }
  }

  lemma {:induction false} RunExtend(s: State, events: seq<Event>, e: Event)
    ensures Run(s, events + [e]) == Next(Run(s, events), e)
  {
    assert (events + [e])[..|events|] == events;
  }

  /** With nobody in between, presenting a live token yields a delivered replacement that keeps the second factor. */
  lemma {:induction false} UndisturbedRotationSucceeds(s: State, req: Req, id: Id, now: Time, expiresAt: Time)
    requires Inv(s) && req !in s.reqs && id in s.delivered
    requires var row := s.rows[id]; row.replacedBy.None? && !row.revoked && now < row.expiresAt
    ensures var looked := Next(Next(s, Present(req, Minted(id))), Look(req, now));
      var t := Next(Next(Next(looked, Issue(req, expiresAt)), Claim(req)), Answer(req));
      && req in t.reqs && t.reqs[req] == Finished(Rotated(id, s.nextId))
      && t.rows == s.rows[id := s.rows[id].(replacedBy := Some(s.nextId))]
                         [s.nextId := Row(s.rows[id].user, s.rows[id].family, expiresAt, false, None, s.rows[id].mfaAt)]
      && t.delivered == s.delivered + {s.nextId}
  {
    assert id < s.nextId;
  }

  class Service {
    var rows: map<Id, Row>
    var nextId: Id
    var nextFamily: Family
    // What happened, for specification only.
    var reqs: map<Req, Pc>
    var delivered: set<Id>
    var dead: set<Family>
    var birth: map<Id, Birth>
    var logins: map<Family, Login>
    var marks: set<(Id, Time)>

    function View(): State
      reads this
    {
      State(rows, nextId, nextFamily, reqs, delivered, dead, birth, logins, marks)
    }

    constructor ()
      ensures View() == Initial
    {
      rows, nextId, nextFamily := map[], 0, 0;
      reqs, delivered, dead, birth, logins, marks := map[], {}, {}, map[], map[], {};
    }

    /** Every other request, for as long as this one is waiting. */
    method Others(req: Req) returns (events: seq<Event>)
      modifies this
      ensures View() == Run(old(View()), events)
      ensures forall e <- events :: Actor(e) != req
    {
      events := *;
      if exists e <- events :: Actor(e) == req {
        events := [];
      }
      var s := Run(View(), events);
      rows, nextId, nextFamily := s.rows, s.nextId, s.nextFamily;
      reqs, delivered, dead := s.reqs, s.delivered, s.dead;
      birth, logins, marks := s.birth, s.logins, s.marks;
    }

    /** `issue`: inserts a row for a family that exists already. */
    method IssueRow(req: Req, parent: Id, user: User, family: Family, expiresAt: Time, mfaAt: Option<Time>)
        returns (id: Id)
      modifies this
      ensures id == old(nextId) && nextId == id + 1
      ensures rows == old(rows)[id := Row(user, family, expiresAt, false, None, mfaAt)]
      ensures birth == old(birth)[id := ByRotation(parent, req)]
      ensures unchanged(`nextFamily, `reqs, `delivered, `dead, `logins, `marks)
    {
      id := nextId;
      rows := rows[id := Row(user, family, expiresAt, false, None, mfaAt)];
      birth := birth[id := ByRotation(parent, req)];
      nextId := nextId + 1;
    }

    /** The conditional update: marks the presented row as replaced, and says how many rows it changed. */
    method ClaimRow(snap: Snapshot, child: Id) returns (count: nat)
      modifies `rows
      ensures count == if Claimable(old(rows), snap) then 1 else 0
      ensures count == 1 ==> rows == old(rows)[snap.id := old(rows)[snap.id].(replacedBy := Some(child))]
      ensures count == 0 ==> rows == old(rows)
    {
      count := 0;
      if snap.id in rows && rows[snap.id].user == snap.user {
        if rows[snap.id].replacedBy.None? && !rows[snap.id].revoked {
          rows := rows[snap.id := rows[snap.id].(replacedBy := Some(child))];
          count := 1;
        }
      }
    }

    /** Every row of the user's family is revoked and nothing else about it changes; all other rows stay. */
    method RevokeFamily(user: User, family: Family)
      modifies `rows, `dead
      ensures rows.Keys == old(rows).Keys
      ensures forall i <- rows ::
                if old(rows)[i].user == user && old(rows)[i].family == family
                then rows[i] == old(rows)[i].(revoked := true)
                else rows[i] == old(rows)[i]
      ensures dead == old(dead) + {family}
    {
      rows := RevokeFamilyRows(rows, user, family);
      dead := dead + {family};
    }

    /** Records how far this request has come. */
    method At(req: Req, pc: Pc)
      modifies `reqs
      ensures reqs == old(reqs)[req := pc]
    {
      reqs := reqs[req := pc];
    }

    /** An `await`: whatever the others do is added to the trace. */
    method Wait(req: Req, ghost before: State, trace: seq<Event>) returns (longer: seq<Event>)
      requires View() == Run(before, trace) && req in reqs
      modifies this
      ensures View() == Run(before, longer)
      ensures req in reqs && reqs[req] == old(reqs[req])
    {
      ghost var s := View();
      var events := Others(req);
      OthersLeaveRequest(s, events, req);
      longer := trace + events;
      RunAppend(before, trace, events);
    }

    /** Reuse was seen: after whatever else happens, the family is revoked and the request rejected. */
    method Reject(req: Req, snap: Snapshot, ghost before: State, trace: seq<Event>)
        returns (longer: seq<Event>)
      requires View() == Run(before, trace)
      requires req in reqs && reqs[req].Revoking? && reqs[req].snap == snap
      modifies this
      ensures View() == Run(before, longer)
      ensures req in reqs && reqs[req] == Finished(Reuse(snap.id))
    {
      longer := Wait(req, before, trace);
      ghost var s := View();
      RevokeFamily(snap.user, snap.family);
      assert rows == RevokeFamilyRows(s.rows, snap.user, snap.family);
      At(req, Finished(Reuse(snap.id)));
      RunExtend(before, longer, RevokeStep(req));
      assert View() == DoRevoke(s, req);
      longer := longer + [RevokeStep(req)];
    }

    /** The second half of `rotate`: issue first, then claim, so that a crash costs nobody their session. */
    method Replace(req: Req, snap: Snapshot, expiresAt: Time, ghost before: State, trace: seq<Event>)
        returns (answer: Result<Id, Outcome>, longer: seq<Event>)
      requires View() == Run(before, trace)
      requires req in reqs && reqs[req] == Issuing(snap)
      modifies this
      ensures View() == Run(before, longer)
      ensures req in reqs
      ensures match answer
              case Ok(child) => reqs[req] == Finished(Rotated(snap.id, child)) && child in delivered
              case Err(outcome) => outcome == Reuse(snap.id) && reqs[req] == Finished(outcome)
    {
      longer := Wait(req, before, trace);
      ghost var s := View();
      var issued := IssueRow(req, snap.id, snap.user, snap.family, expiresAt, snap.mfaAt);
      At(req, Claiming(snap, issued));
      assert View() == DoIssue(s, req, expiresAt);
      RunExtend(before, longer, Issue(req, expiresAt));
      longer := longer + [Issue(req, expiresAt)];

      answer, longer := Install(req, snap, issued, before, longer);
    }

    /** The response reaches the client. */
    method Deliver(req: Req, snap: Snapshot, issued: Id, ghost before: State, trace: seq<Event>)
        returns (longer: seq<Event>)
      requires View() == Run(before, trace)
      requires req in reqs && reqs[req] == Answering(snap, issued)
      modifies this
      ensures View() == Run(before, longer)
      ensures req in reqs && reqs[req] == Finished(Rotated(snap.id, issued)) && issued in delivered
    {
      longer := Wait(req, before, trace);
      ghost var s := View();
      delivered := delivered + {issued};
      At(req, Finished(Rotated(snap.id, issued)));
      assert View() == DoAnswer(s, req);
      RunExtend(before, longer, Answer(req));
      longer := longer + [Answer(req)];
    }

    /** Claims the presented row for the replacement just issued; exactly one of several racing requests succeeds. */
    method Install(req: Req, snap: Snapshot, issued: Id, ghost before: State, trace: seq<Event>)
        returns (answer: Result<Id, Outcome>, longer: seq<Event>)
      requires View() == Run(before, trace)
      requires req in reqs && reqs[req] == Claiming(snap, issued)
      modifies this
      ensures View() == Run(before, longer)
      ensures req in reqs
      ensures match answer
              case Ok(child) =>
                child == issued && reqs[req] == Finished(Rotated(snap.id, child)) && child in delivered
              case Err(outcome) => outcome == Reuse(snap.id) && reqs[req] == Finished(outcome)
    {
      longer := Wait(req, before, trace);
      ghost var s := View();
      var claimed := ClaimRow(snap, issued);
      RunExtend(before, longer, Claim(req));
      longer := longer + [Claim(req)];
      if claimed == 0 {
        At(req, Revoking(snap, Some(issued)));
        assert View() == DoClaim(s, req);
        longer := Reject(req, snap, before, longer);
        return Err(Reuse(snap.id)), longer;
      }
      At(req, Answering(snap, issued));
      assert View() == DoClaim(s, req);
      longer := Deliver(req, snap, issued, before, longer);
      return Ok(issued), longer;
    }

    /**
     * `rotate`. `trace` is everything that happened meanwhile, this request's own steps
     * included; the answer is the one the machine reaches.
     */
    method Rotate(req: Req, presented: Token, now: Time, expiresAt: Time)
        returns (answer: Result<Id, Outcome>, trace: seq<Event>)
      requires req !in reqs && (presented.Minted? ==> presented.id in delivered)
      modifies this
      ensures View() == Run(old(View()), trace)
      ensures req in reqs
      ensures match answer
              case Ok(child) =>
                presented.Minted? && reqs[req] == Finished(Rotated(presented.id, child)) && child in delivered
              case Err(outcome) => reqs[req] == Finished(outcome) && !outcome.Rotated?
      ensures Inv(old(View())) && presented.Minted? && presented.id in old(rows) ==>
                var row := old(rows)[presented.id];
                if row.replacedBy.Some? || row.revoked then answer == Err(Reuse(presented.id))
                else row.expiresAt <= now ==> answer.Err?
    {
      ghost var before := View();
      At(req, Presented(presented));
      trace := [Present(req, presented)];
      assert trace[..0] == [];
      assert Run(before, trace) == DoPresent(before, req, presented);

      trace := Wait(req, before, trace);
      ghost var s := View();
      if Inv(before) {
        RunAges(before, trace);
      }
      RunExtend(before, trace, Look(req, now));
      trace := trace + [Look(req, now)];
      if presented.Forged? || presented.id !in rows {
        At(req, Finished(Unknown));
        assert View() == DoLook(s, req, now);
        return Err(Unknown), trace;
      }
      var session := rows[presented.id];
      var snap := Snapshot(presented.id, session.user, session.family, session.mfaAt);
      if session.replacedBy.Some? || session.revoked {
        At(req, Revoking(snap, None));
        assert View() == DoLook(s, req, now);
        trace := Reject(req, snap, before, trace);
        return Err(Reuse(snap.id)), trace;
      }
      if session.expiresAt <= now {
        At(req, Finished(Expired(snap.id)));
        assert View() == DoLook(s, req, now);
        return Err(Expired(snap.id)), trace;
      }
      At(req, Issuing(snap));
      assert View() == DoLook(s, req, now);
      answer, trace := Replace(req, snap, expiresAt, before, trace);
    }
  }
}
