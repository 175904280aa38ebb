/**
 * Refresh tokens and reuse detection (`SessionService`).
 *
 * `rotate` is not one transaction: it reads the presented row, issues a
 * replacement, claims the presented row with a conditional update, and on any
 * sign of reuse revokes the whole family. Each of those commits separately, any
 * number of requests may be between any two of them, and a request may die there.
 *
 * The database and the requests in flight form one `State`; an `Event` is one
 * atomic step of one request (or of one of the other entry points). `Next` is
 * total: an event that is not enabled changes nothing, so every sequence of
 * events is a run and the theorems quantify over all of them.
 *
 * A token is named by the row it was minted for: the hash is injective and a
 * token cannot be guessed, so a client presents a token it was handed, or one
 * that never existed.
 */
module Sessions {
  import opened Basics

  type User = nat
  type Family = nat
  type Id = nat
  type Req = nat
  type Time = int

  datatype Row = Row(
    user: User, family: Family, expiresAt: Time,
    revoked: bool, replacedBy: Option<Id>, mfaAt: Option<Time>)

  /** The columns `rotate` reads and keeps for the rest of the call. */
  datatype Snapshot = Snapshot(id: Id, user: User, family: Family, mfaAt: Option<Time>)

  datatype Token = Minted(id: Id) | Forged

  datatype Outcome =
    | LoggedIn(id: Id)
    | Rotated(parent: Id, child: Id)
    | Unknown
    | Expired(parent: Id)
    | Reuse(parent: Id)

  /** Where a request is. A `Crashed` one may have left behind a row it issued but never installed. */
  datatype Pc =
    | LoginIssued(id: Id)
    | Presented(token: Token)
    | Issuing(snap: Snapshot)
    | Claiming(snap: Snapshot, child: Id)
    | Answering(snap: Snapshot, child: Id)
    | Revoking(snap: Snapshot, orphan: Option<Id>)
    | Finished(outcome: Outcome)
    | Crashed(orphan: Option<Id>)

  /** Which request inserted a row, and from which row it was issued. */
  datatype Birth = ByLogin(req: Req) | ByRotation(parent: Id, req: Req)

  datatype Login = Login(user: User, root: Id)

  /**
   * `rows` is the table. The rest is history the program does not store: the
   * requests, the tokens that reached a client, the families on which a
   * `revokeFamily` or `revokeAll` by their owner has committed, and where rows and
   * second-factor marks came from.
   */
  datatype State = State(
    rows: map<Id, Row>, nextId: Id, nextFamily: Family,
    reqs: map<Req, Pc>, delivered: set<Id>, dead: set<Family>,
    birth: map<Id, Birth>, logins: map<Family, Login>, marks: set<(Id, Time)>)

  const Initial := State(map[], 0, 0, map[], {}, {}, map[], map[], {})

  datatype Event =
    | SignIn(req: Req, user: User, expiresAt: Time)
    | Present(req: Req, token: Token)
    | Look(req: Req, now: Time)
    | Issue(req: Req, expiresAt: Time)
    | Claim(req: Req)
    | RevokeStep(req: Req)
    | Answer(req: Req)
    | Crash(req: Req)
    | SignOut(user: User, id: Id)
    | SignOutFamily(user: User, family: Family)
    | SignOutAll(user: User)
    | MarkMfa(user: User, id: Id, at: Time)

  // ------------------------------------------------------------ the table's updates

  /** `updateMany … { familyId, revokedAt: null }` under the user's row-level security. */
  function RevokeFamilyRows(rows: map<Id, Row>, user: User, family: Family): map<Id, Row> {
    map i | i in rows ::
      if rows[i].user == user && rows[i].family == family then rows[i].(revoked := true) else rows[i]
  }

  function RevokeAllRows(rows: map<Id, Row>, user: User): map<Id, Row> {
    map i | i in rows :: if rows[i].user == user then rows[i].(revoked := true) else rows[i]
  }

  /** The conditional claim matches at most this row. */
  predicate Claimable(rows: map<Id, Row>, snap: Snapshot) {
    snap.id in rows && rows[snap.id].user == snap.user
    && rows[snap.id].replacedBy.None? && !rows[snap.id].revoked
  }

  function SnapshotOf(rows: map<Id, Row>, id: Id): Snapshot
    requires id in rows
  {
    Snapshot(id, rows[id].user, rows[id].family, rows[id].mfaAt)
  }

  // ------------------------------------------------------------ one step

  predicate InFlight(pc: Pc) {
    !pc.Finished? && !pc.Crashed?
  }

  /** The row a request has issued but not (yet) installed as a replacement. */
  function Loose(pc: Pc): Option<Id> {
    match pc
    case Claiming(_, child) => Some(child)
    case Revoking(_, orphan) => orphan
    case Crashed(orphan) => orphan
    case _ => None
  }

  function AfterLook(rows: map<Id, Row>, token: Token, now: Time): Pc {
    if token.Forged? || token.id !in rows then
      Finished(Unknown)
    else
      var row := rows[token.id];
      var snap := SnapshotOf(rows, token.id);
      if row.replacedBy.Some? || row.revoked then Revoking(snap, None)
      else if row.expiresAt <= now then Finished(Expired(token.id))
      else Issuing(snap)
  }

  function DoSignIn(s: State, req: Req, user: User, expiresAt: Time): State {
    if req in s.reqs then s else
    s.(reqs := s.reqs[req := LoginIssued(s.nextId)],
       rows := s.rows[s.nextId := Row(user, s.nextFamily, expiresAt, false, None, None)],
       birth := s.birth[s.nextId := ByLogin(req)],
       logins := s.logins[s.nextFamily := Login(user, s.nextId)],
       nextId := s.nextId + 1, nextFamily := s.nextFamily + 1)
  }

  function DoPresent(s: State, req: Req, token: Token): State {
    if req in s.reqs || (token.Minted? && token.id !in s.delivered) then s
    else s.(reqs := s.reqs[req := Presented(token)])
  }

  function DoLook(s: State, req: Req, now: Time): State {
    if req !in s.reqs || !s.reqs[req].Presented? then s
    else s.(reqs := s.reqs[req := AfterLook(s.rows, s.reqs[req].token, now)])
  }

  /** `issue`: the replacement inherits the second factor of the snapshot. */
  function DoIssue(s: State, req: Req, expiresAt: Time): State {
    if req !in s.reqs || !s.reqs[req].Issuing? then s else
    var snap := s.reqs[req].snap;
    s.(reqs := s.reqs[req := Claiming(snap, s.nextId)],
       rows := s.rows[s.nextId := Row(snap.user, snap.family, expiresAt, false, None, snap.mfaAt)],
       birth := s.birth[s.nextId := ByRotation(snap.id, req)],
       nextId := s.nextId + 1)
  }

  function DoClaim(s: State, req: Req): State {
    if req !in s.reqs || !s.reqs[req].Claiming? then s else
    var snap, child := s.reqs[req].snap, s.reqs[req].child;
    if Claimable(s.rows, snap) then
      s.(reqs := s.reqs[req := Answering(snap, child)],
         rows := s.rows[snap.id := s.rows[snap.id].(replacedBy := Some(child))])
    else
      s.(reqs := s.reqs[req := Revoking(snap, Some(child))])
  }

  function DoRevoke(s: State, req: Req): State {
    if req !in s.reqs || !s.reqs[req].Revoking? then s else
    var snap := s.reqs[req].snap;
    s.(reqs := s.reqs[req := Finished(Reuse(snap.id))],
       rows := RevokeFamilyRows(s.rows, snap.user, snap.family),
       dead := s.dead + {snap.family})
  }

  /** The response reaches the client, which from now on holds the token. */
  function DoAnswer(s: State, req: Req): State {
    if req in s.reqs && s.reqs[req].LoginIssued? then
      var id := s.reqs[req].id;
      s.(reqs := s.reqs[req := Finished(LoggedIn(id))], delivered := s.delivered + {id})
    else if req in s.reqs && s.reqs[req].Answering? then
      var child := s.reqs[req].child;
      s.(reqs := s.reqs[req := Finished(Rotated(s.reqs[req].snap.id, child))], delivered := s.delivered + {child})
    else s
  }

  function DoCrash(s: State, req: Req): State {
    if req !in s.reqs || !InFlight(s.reqs[req]) then s
    else s.(reqs := s.reqs[req := Crashed(Loose(s.reqs[req]))])
  }

  function DoSignOut(s: State, user: User, id: Id): State {
    if id !in s.rows || s.rows[id].user != user then s
    else s.(rows := s.rows[id := s.rows[id].(revoked := true)])
  }

  function DoSignOutFamily(s: State, user: User, family: Family): State {
    s.(rows := RevokeFamilyRows(s.rows, user, family),
       dead := if family in s.logins && s.logins[family].user == user then s.dead + {family} else s.dead)
  }

  /** The families that a user has signed in so far. */
  function FamiliesOf(s: State, user: User): set<Family> {
    set f | f in s.logins && s.logins[f].user == user
  }

  /** `revokeAll`. */
  function DoSignOutAll(s: State, user: User): State {
    s.(rows := RevokeAllRows(s.rows, user), dead := s.dead + FamiliesOf(s, user))
  }

  function DoMarkMfa(s: State, user: User, id: Id, at: Time): State {
    if id !in s.rows || s.rows[id].user != user || s.rows[id].revoked then s
    else s.(rows := s.rows[id := s.rows[id].(mfaAt := Some(at))], marks := s.marks + {(id, at)})
  }

  function Next(s: State, e: Event): State {
    match e
    case SignIn(req, user, expiresAt) => DoSignIn(s, req, user, expiresAt)
    case Present(req, token) => DoPresent(s, req, token)
    case Look(req, now) => DoLook(s, req, now)
    case Issue(req, expiresAt) => DoIssue(s, req, expiresAt)
    case Claim(req) => DoClaim(s, req)
    case RevokeStep(req) => DoRevoke(s, req)
    case Answer(req) => DoAnswer(s, req)
    case Crash(req) => DoCrash(s, req)
    case SignOut(user, id) => DoSignOut(s, user, id)
    case SignOutFamily(user, family) => DoSignOutFamily(s, user, family)
    case SignOutAll(user) => DoSignOutAll(s, user)
    case MarkMfa(user, id, at) => DoMarkMfa(s, user, id, at)
  }

  /** The request an event belongs to, or -1. */
  function Actor(e: Event): int {
    if e.SignOut? || e.SignOutFamily? || e.SignOutAll? || e.MarkMfa? then -1 else e.req
  }

  function Run(s: State, events: seq<Event>): State
    decreases |events|
  {
    if events == [] then s
    else Next(Run(s, events[..|events| - 1]), events[|events| - 1])
  }

  lemma {:induction false} RunAppend(s: State, xs: seq<Event>, ys: seq<Event>)
    ensures Run(s, xs + ys) == Run(Run(s, xs), ys)
    decreases |ys|
  {
    if ys == [] {
      assert xs + ys == xs;
    } else {
      var zs := xs + ys;
      assert zs[..|zs| - 1] == xs + ys[..|ys| - 1];
      RunAppend(s, xs, ys[..|ys| - 1]);
    }
  }

  // ------------------------------------------------------------ the invariant

  /** A row carries a second factor at `at` only if it was marked here or on an ancestor. */
  predicate Lineage(birth: map<Id, Birth>, marks: set<(Id, Time)>, id: Id, at: Time)
    decreases id
  {
    (id, at) in marks
    || (id in birth && birth[id].ByRotation? && birth[id].parent < id
        && Lineage(birth, marks, birth[id].parent, at))
  }

  predicate HeldLoose(s: State, id: Id) {
    id in s.birth && s.birth[id].ByRotation? && s.birth[id].req in s.reqs
    && Loose(s.reqs[s.birth[id].req]) == Some(id)
  }

  predicate SnapOk(s: State, snap: Snapshot) {
    snap.id in s.delivered && snap.id in s.rows
    && s.rows[snap.id].user == snap.user && s.rows[snap.id].family == snap.family
    && (snap.mfaAt.Some? ==> Lineage(s.birth, s.marks, snap.id, snap.mfaAt.value))
  }

  predicate ChildOk(s: State, req: Req, child: Id) {
    child in s.rows && child in s.birth && s.birth[child].ByRotation? && s.birth[child].req == req
  }

  predicate LooseOk(s: State, req: Req, child: Id) {
    && ChildOk(s, req, child)
    && child !in s.delivered
    && (s.birth[child].parent in s.rows ==> s.rows[s.birth[child].parent].replacedBy != Some(child))
  }

  predicate InstalledOk(s: State, req: Req, parent: Id, child: Id) {
    && ChildOk(s, req, child) && s.birth[child].parent == parent
    && parent in s.rows && s.rows[parent].replacedBy == Some(child)
  }

  predicate PcOk(s: State, req: Req, pc: Pc) {
    match pc
    case LoginIssued(id) => id in s.birth && s.birth[id] == ByLogin(req)
    case Presented(token) => token.Minted? ==> token.id in s.delivered
    case Issuing(snap) => SnapOk(s, snap)
    case Claiming(snap, child) =>
      SnapOk(s, snap) && LooseOk(s, req, child) && s.birth[child].parent == snap.id
    case Answering(snap, child) => SnapOk(s, snap) && InstalledOk(s, req, snap.id, child)
    case Revoking(snap, orphan) =>
      SnapOk(s, snap)
      && (orphan.Some? ==> LooseOk(s, req, orphan.value) && s.birth[orphan.value].parent == snap.id)
    case Finished(LoggedIn(id)) => id in s.delivered
    case Finished(Rotated(parent, child)) =>
      InstalledOk(s, req, parent, child) && child in s.delivered
    case Finished(Unknown) => true
    case Finished(Expired(parent)) => parent in s.rows
    case Finished(Reuse(parent)) => parent in s.rows && s.rows[parent].family in s.dead
    case Crashed(orphan) => orphan.Some? ==> LooseOk(s, req, orphan.value)
  }

  predicate RowOk(s: State, id: Id)
    requires id in s.rows
  {
    var row := s.rows[id];
    && row.family in s.logins
    && row.user == s.logins[row.family].user
    && (row.mfaAt.Some? ==> Lineage(s.birth, s.marks, id, row.mfaAt.value))
    && (row.replacedBy.Some? ==>
          && id in s.delivered
          && row.replacedBy.value in s.rows
          && row.replacedBy.value in s.birth
          && s.birth[row.replacedBy.value].ByRotation?
          && s.birth[row.replacedBy.value].parent == id)
    && (row.family in s.dead && !row.revoked ==> HeldLoose(s, id))
  }

  predicate BirthOk(s: State, id: Id)
    requires id in s.birth
  {
    match s.birth[id]
    case ByLogin(_) =>
      id in s.rows && s.rows[id].family in s.logins && s.logins[s.rows[id].family].root == id
    case ByRotation(parent, _) =>
      && parent < id && parent in s.delivered && parent in s.rows && id in s.rows
      && s.rows[parent].family == s.rows[id].family
      && (id in s.delivered ==> s.rows[parent].replacedBy == Some(id))
  }

  predicate Bounds(s: State) {
    && s.birth.Keys == s.rows.Keys
    && (forall i <- s.rows :: i < s.nextId)
    && s.delivered <= s.rows.Keys
    && (forall f <- s.logins :: f < s.nextFamily && s.logins[f].root in s.rows)
    && s.dead <= s.logins.Keys
  }

  ghost predicate Inv(s: State) {
    && Bounds(s)
    && (forall i {:trigger RowOk(s, i)} :: i in s.rows ==> RowOk(s, i))
    && (forall i {:trigger BirthOk(s, i)} :: i in s.birth ==> BirthOk(s, i))
    && (forall q {:trigger PcOk(s, q, s.reqs[q])} :: q in s.reqs ==> PcOk(s, q, s.reqs[q]))
  }

  // ------------------------------------------------------------ every step keeps it

  lemma {:induction false} LineageGrows(
    b: map<Id, Birth>, m: set<(Id, Time)>, b': map<Id, Birth>, m': set<(Id, Time)>, id: Id, at: Time)
    requires Lineage(b, m, id, at)
    requires (forall k <- b :: k in b' && b'[k] == b[k]) && m <= m'
    ensures Lineage(b', m', id, at)
    decreases id
  {
    if (id, at) !in m {
      LineageGrows(b, m, b', m', b[id].parent, at);
    }
  }

  lemma {:induction false} AllLineagesGrow(s: State, t: State)
    requires (forall k <- s.birth :: k in t.birth && t.birth[k] == s.birth[k]) && s.marks <= t.marks
    ensures forall id, at :: Lineage(s.birth, s.marks, id, at) ==> Lineage(t.birth, t.marks, id, at)
  {
    forall id, at | Lineage(s.birth, s.marks, id, at) ensures Lineage(t.birth, t.marks, id, at) {
      LineageGrows(s.birth, s.marks, t.birth, t.marks, id, at);
    }
  }

  /**
   * What a step by `req` may change, as far as every other request can tell.
   * The entry points that belong to no request pass -1.
   */
  ghost predicate StepBy(s: State, t: State, req: int) {
    && (forall i <- s.rows :: i in t.rows
          && t.rows[i].user == s.rows[i].user && t.rows[i].family == s.rows[i].family
          && (t.rows[i].replacedBy == s.rows[i].replacedBy
              || (s.rows[i].replacedBy.None? && t.rows[i].replacedBy.Some? && req >= 0
                  && ChildOk(t, req, t.rows[i].replacedBy.value))))
    && (forall k <- s.birth :: k in t.birth && t.birth[k] == s.birth[k])
    && s.marks <= t.marks && s.delivered <= t.delivered && s.dead <= t.dead
    && (forall i <- t.delivered :: i in s.delivered || (i in t.birth && t.birth[i].req == req))
    && (forall f <- s.logins :: f in t.logins && t.logins[f] == s.logins[f])
    && (forall q <- t.reqs :: q != req ==> q in s.reqs && t.reqs[q] == s.reqs[q])
  }

  /** What one row must see of a step for its part of the invariant to survive. */
  ghost predicate RowStep(s: State, t: State, i: Id)
    requires i in s.rows
  {
    && i in t.rows && i in s.birth
    && (t.rows[i].mfaAt == s.rows[i].mfaAt || (t.rows[i].mfaAt.Some? && (i, t.rows[i].mfaAt.value) in t.marks))
    && (t.rows[i].replacedBy == s.rows[i].replacedBy
        || (t.rows[i].replacedBy.Some? && i in t.delivered
            && t.rows[i].replacedBy.value in t.birth && t.rows[i].replacedBy.value in t.rows
            && t.birth[t.rows[i].replacedBy.value].ByRotation?
            && t.birth[t.rows[i].replacedBy.value].parent == i))
    && (t.rows[i].family in t.dead && !t.rows[i].revoked ==> HeldLoose(t, i))
  }

  ghost predicate RowsStep(s: State, t: State) {
    forall i {:trigger RowStep(s, t, i)} :: i in s.rows ==> RowStep(s, t, i)
  }

  /** What a step has to establish about its own request and the rows it inserted or delivered. */
  ghost predicate Local(s: State, t: State, req: int) {
    && Bounds(t)
    && (forall i {:trigger RowOk(t, i)} :: i in t.rows && i !in s.rows ==> RowOk(t, i))
    && (forall i {:trigger BirthOk(t, i)} ::
          i in t.birth && (i !in s.birth || (i in t.delivered && i !in s.delivered)) ==> BirthOk(t, i))
    && (req in t.reqs ==> PcOk(t, req, t.reqs[req]))
  }

  lemma {:induction false} OtherRequestsCarry(s: State, t: State, req: int)
    requires StepBy(s, t, req) && Inv(s)
    ensures forall q {:trigger PcOk(t, q, s.reqs[q])} :: q in s.reqs && q != req ==> PcOk(t, q, s.reqs[q])
  {
    AllLineagesGrow(s, t);
    forall q <- s.reqs | q != req ensures PcOk(t, q, s.reqs[q]) {
      assert PcOk(s, q, s.reqs[q]);
      var orphan := Loose(s.reqs[q]);
      if orphan.Some? {
        assert BirthOk(s, orphan.value);
      }
    }
  }

  lemma {:induction false} RowsCarry(s: State, t: State, req: int)
    requires StepBy(s, t, req) && RowsStep(s, t) && Inv(s)
    ensures forall i {:trigger RowOk(t, i)} :: i in s.rows ==> RowOk(t, i)
    ensures forall i {:trigger BirthOk(t, i)} ::
              i in s.birth && (i in s.delivered || i !in t.delivered) ==> BirthOk(t, i)
  {
    AllLineagesGrow(s, t);
    forall i <- s.rows ensures RowOk(t, i) {
      assert RowOk(s, i) && RowStep(s, t, i);
    }
    forall i <- s.birth | i in s.delivered || i !in t.delivered ensures BirthOk(t, i) {
      assert BirthOk(s, i);
    }
  }

  lemma {:induction false} StepKeepsInv(s: State, t: State, req: int)
    requires Inv(s) && StepBy(s, t, req) && RowsStep(s, t) && Local(s, t, req)
    ensures Inv(t)
  {
    OtherRequestsCarry(s, t, req);
    RowsCarry(s, t, req);
  }

  lemma {:induction false} DeliveredIsNotLoose(s: State, id: Id)
    requires Inv(s) && id in s.delivered
    ensures !HeldLoose(s, id)
    ensures s.rows[id].family in s.dead ==> s.rows[id].revoked
  {
    assert RowOk(s, id);
    var q := if id in s.birth then s.birth[id].req else 0;
    assert q in s.reqs ==> PcOk(s, q, s.reqs[q]);
  }

  lemma {:induction false} SignInRows(s: State, t: State, req: Req, user: User, expiresAt: Time)
    requires Inv(s) && t == DoSignIn(s, req, user, expiresAt) && t != s
    ensures StepBy(s, t, req) && RowsStep(s, t)
  {
    forall i <- s.rows ensures RowStep(s, t, i) {
      assert RowOk(s, i);
    }
  }

  lemma {:induction false} SignInLocal(s: State, t: State, req: Req, user: User, expiresAt: Time)
    requires Inv(s) && t == DoSignIn(s, req, user, expiresAt) && t != s
    ensures Local(s, t, req)
  {
  }

  lemma {:induction false} PresentRows(s: State, t: State, req: Req, token: Token)
    requires Inv(s) && t == DoPresent(s, req, token) && t != s
    ensures StepBy(s, t, req) && RowsStep(s, t)
  {
    forall i <- s.rows ensures RowStep(s, t, i) {
      assert RowOk(s, i);
    }
  }

  lemma {:induction false} PresentLocal(s: State, t: State, req: Req, token: Token)
    requires Inv(s) && t == DoPresent(s, req, token) && t != s
    ensures Local(s, t, req)
  {
  }

  lemma {:induction false} LookRows(s: State, t: State, req: Req, now: Time)
    requires Inv(s) && t == DoLook(s, req, now) && t != s
    ensures StepBy(s, t, req) && RowsStep(s, t)
  {
    assert PcOk(s, req, s.reqs[req]);
    forall i <- s.rows ensures RowStep(s, t, i) {
      assert RowOk(s, i);
    }
  }

  lemma {:induction false} LookLocal(s: State, t: State, req: Req, now: Time)
    requires Inv(s) && t == DoLook(s, req, now) && t != s
    ensures Local(s, t, req)
  {
    assert PcOk(s, req, s.reqs[req]);
    var token := s.reqs[req].token;
    assert token.Minted? ==> RowOk(s, token.id);
  }

  lemma {:induction false} IssueRows(s: State, t: State, req: Req, expiresAt: Time)
    requires Inv(s) && t == DoIssue(s, req, expiresAt) && t != s
    ensures StepBy(s, t, req) && RowsStep(s, t)
  {
    assert PcOk(s, req, s.reqs[req]);
    forall i <- s.rows ensures RowStep(s, t, i) {
      assert RowOk(s, i);
    }
  }

  lemma {:induction false} IssueLocal(s: State, t: State, req: Req, expiresAt: Time)
    requires Inv(s) && t == DoIssue(s, req, expiresAt) && t != s
    ensures Local(s, t, req)
  {
    assert PcOk(s, req, s.reqs[req]);
    assert RowOk(s, s.reqs[req].snap.id);
    AllLineagesGrow(s, t);
  }

  lemma {:induction false} ClaimRows(s: State, t: State, req: Req)
    requires Inv(s) && t == DoClaim(s, req) && t != s
    ensures StepBy(s, t, req) && RowsStep(s, t)
  {
    assert PcOk(s, req, s.reqs[req]);
    DeliveredIsNotLoose(s, s.reqs[req].snap.id);
    assert RowOk(s, s.reqs[req].snap.id) && BirthOk(s, s.reqs[req].child);
    forall i <- s.rows ensures RowStep(s, t, i) {
      assert RowOk(s, i);
    }
  }

  lemma {:induction false} ClaimLocal(s: State, t: State, req: Req)
    requires Inv(s) && t == DoClaim(s, req) && t != s
    ensures Local(s, t, req)
  {
    assert PcOk(s, req, s.reqs[req]);
    DeliveredIsNotLoose(s, s.reqs[req].snap.id);
    assert RowOk(s, s.reqs[req].snap.id) && BirthOk(s, s.reqs[req].child);
  }

  lemma {:induction false} RevokeRows(s: State, t: State, req: Req)
    requires Inv(s) && t == DoRevoke(s, req) && t != s
    ensures StepBy(s, t, req) && RowsStep(s, t)
  {
    assert PcOk(s, req, s.reqs[req]);
    assert RowOk(s, s.reqs[req].snap.id);
    var orphan := s.reqs[req].orphan;
    assert orphan.Some? ==> BirthOk(s, orphan.value) && RowOk(s, orphan.value);
    forall i <- s.rows ensures RowStep(s, t, i) {
      assert RowOk(s, i);
    }
  }

  lemma {:induction false} RevokeLocal(s: State, t: State, req: Req)
    requires Inv(s) && t == DoRevoke(s, req) && t != s
    ensures Local(s, t, req)
  {
    assert PcOk(s, req, s.reqs[req]);
    assert RowOk(s, s.reqs[req].snap.id);
    var orphan := s.reqs[req].orphan;
    assert orphan.Some? ==> BirthOk(s, orphan.value) && RowOk(s, orphan.value);
  }

  lemma {:induction false} AnswerRows(s: State, t: State, req: Req)
    requires Inv(s) && t == DoAnswer(s, req) && t != s
    ensures StepBy(s, t, req) && RowsStep(s, t)
  {
    assert PcOk(s, req, s.reqs[req]);
    assert s.reqs[req].LoginIssued? ==> BirthOk(s, s.reqs[req].id);
    assert s.reqs[req].Answering? ==> BirthOk(s, s.reqs[req].child);
    forall i <- s.rows ensures RowStep(s, t, i) {
      assert RowOk(s, i);
    }
  }

  lemma {:induction false} AnswerLocal(s: State, t: State, req: Req)
    requires Inv(s) && t == DoAnswer(s, req) && t != s
    ensures Local(s, t, req)
  {
    assert PcOk(s, req, s.reqs[req]);
    assert s.reqs[req].LoginIssued? ==> BirthOk(s, s.reqs[req].id);
    assert s.reqs[req].Answering? ==> BirthOk(s, s.reqs[req].child);
  }

  lemma {:induction false} CrashRows(s: State, t: State, req: Req)
    requires Inv(s) && t == DoCrash(s, req) && t != s
    ensures StepBy(s, t, req) && RowsStep(s, t)
  {
    assert PcOk(s, req, s.reqs[req]);
    forall i <- s.rows ensures RowStep(s, t, i) {
      assert RowOk(s, i);
    }
  }

  lemma {:induction false} CrashLocal(s: State, t: State, req: Req)
    requires Inv(s) && t == DoCrash(s, req) && t != s
    ensures Local(s, t, req)
  {
    assert PcOk(s, req, s.reqs[req]);
  }

  lemma {:induction false} SignOutRows(s: State, t: State, user: User, id: Id)
    requires Inv(s) && t == DoSignOut(s, user, id) && t != s
    ensures StepBy(s, t, -1) && RowsStep(s, t)
  {
    forall i <- s.rows ensures RowStep(s, t, i) {
      assert RowOk(s, i);
    }
  }

  lemma {:induction false} SignOutManyRows(s: State, t: State, user: User, family: Family)
    requires Inv(s)
    requires t == DoSignOutFamily(s, user, family) || t == DoSignOutAll(s, user)
    ensures StepBy(s, t, -1) && RowsStep(s, t)
  {
    forall i <- s.rows ensures RowStep(s, t, i) {
      assert RowOk(s, i);
    }
  }

  lemma {:induction false} MarkMfaRows(s: State, t: State, user: User, id: Id, at: Time)
    requires Inv(s) && t == DoMarkMfa(s, user, id, at) && t != s
    ensures StepBy(s, t, -1) && RowsStep(s, t)
  {
    forall i <- s.rows ensures RowStep(s, t, i) {
      assert RowOk(s, i);
    }
  }

  lemma {:induction false} TableUpdateLocal(s: State, t: State, e: Event)
    requires Inv(s) && (e.SignOut? || e.SignOutFamily? || e.SignOutAll? || e.MarkMfa?) && t == Next(s, e)
    ensures Local(s, t, -1)
  {
  }

  lemma {:induction false} NextKeepsInv(s: State, e: Event)
    requires Inv(s)
    ensures Inv(Next(s, e))
  {
    var t := Next(s, e);
    if t != s {
      match e {
        case SignIn(req, user, expiresAt) =>
          SignInRows(s, t, req, user, expiresAt); SignInLocal(s, t, req, user, expiresAt);
        case Present(req, token) => PresentRows(s, t, req, token); PresentLocal(s, t, req, token);
        case Look(req, now) => LookRows(s, t, req, now); LookLocal(s, t, req, now);
        case Issue(req, expiresAt) => IssueRows(s, t, req, expiresAt); IssueLocal(s, t, req, expiresAt);
        case Claim(req) => ClaimRows(s, t, req); ClaimLocal(s, t, req);
        case RevokeStep(req) => RevokeRows(s, t, req); RevokeLocal(s, t, req);
        case Answer(req) => AnswerRows(s, t, req); AnswerLocal(s, t, req);
        case Crash(req) => CrashRows(s, t, req); CrashLocal(s, t, req);
        case SignOut(user, id) => SignOutRows(s, t, user, id); TableUpdateLocal(s, t, e);
        case SignOutFamily(user, family) => SignOutManyRows(s, t, user, family); TableUpdateLocal(s, t, e);
        case SignOutAll(user) => SignOutManyRows(s, t, user, 0); TableUpdateLocal(s, t, e);
        case MarkMfa(user, id, at) => MarkMfaRows(s, t, user, id, at); TableUpdateLocal(s, t, e);
      }
      StepKeepsInv(s, t, Actor(e));
    }
  }

  lemma {:induction false} RunKeepsInv(s: State, events: seq<Event>)
    requires Inv(s)
    ensures Inv(Run(s, events))
    decreases |events|
  {
    if events != [] {
      RunKeepsInv(s, events[..|events| - 1]);
      NextKeepsInv(Run(s, events[..|events| - 1]), events[|events| - 1]);
    }
  }

  ghost predicate Reachable(s: State) {
    exists events :: Run(Initial, events) == s
  }

  lemma {:induction false} ReachableInv(s: State)
    requires Reachable(s)
    ensures Inv(s)
  {
    var events :| Run(Initial, events) == s;
    RunKeepsInv(Initial, events);
  }

  lemma {:induction false} ReachableNext(s: State, e: Event)
    requires Reachable(s)
    ensures Reachable(Next(s, e))
  {
    var events :| Run(Initial, events) == s;
    assert (events + [e])[..|events|] == events;
    assert Run(Initial, events + [e]) == Next(s, e);
  }

  // ------------------------------------------------------------ a revoked family is over

  /** Rows stay, in their family, and a replacement once installed is never changed. */
  ghost predicate Keeps(s: State, t: State) {
    forall i {:trigger t.rows[i]} {:trigger s.rows[i]} :: i in s.rows ==>
      && i in t.rows && t.rows[i].family == s.rows[i].family
      && (s.rows[i].replacedBy.Some? ==> t.rows[i].replacedBy == s.rows[i].replacedBy)
  }

  /** Between `s` and `t` no row of the family gained a replacement. */
  ghost predicate Frozen(s: State, t: State, family: Family) {
    && family in t.dead
    && Keeps(s, t)
    && forall i {:trigger t.rows[i]} :: i in t.rows && t.rows[i].family == family ==>
         t.rows[i].replacedBy == (if i in s.rows then s.rows[i].replacedBy else None)
  }

  lemma {:induction false} StepKeepsRows(s: State, e: Event)
    requires Inv(s)
    ensures Keeps(s, Next(s, e))
  {
  }

  lemma {:induction false} RunKeepsRows(s: State, events: seq<Event>)
    requires Inv(s)
    ensures Keeps(s, Run(s, events))
    decreases |events|
  {
    if events != [] {
      var before := events[..|events| - 1];
      RunKeepsRows(s, before);
      RunKeepsInv(s, before);
      StepKeepsRows(Run(s, before), events[|events| - 1]);
    }
  }

  lemma {:induction false} StepFreezes(s: State, e: Event, family: Family)
    requires Inv(s) && family in s.dead
    ensures Frozen(s, Next(s, e), family)
  {
    StepKeepsRows(s, e);
    if e.Claim? && e.req in s.reqs && s.reqs[e.req].Claiming? {
      assert PcOk(s, e.req, s.reqs[e.req]);
      DeliveredIsNotLoose(s, s.reqs[e.req].snap.id);
    }
  }

  lemma {:induction false} RunFreezes(s: State, events: seq<Event>, family: Family)
    requires Inv(s) && family in s.dead
    ensures Frozen(s, Run(s, events), family)
    decreases |events|
  {
    if events != [] {
      var before := events[..|events| - 1];
      RunFreezes(s, before, family);
      RunKeepsInv(s, before);
      StepFreezes(Run(s, before), events[|events| - 1], family);
    }
  }

  /**
   * From `s` to `t` nothing of the family was accepted: every token of it that reached a
   * client is revoked, no row of it gained a replacement, and every rotation that reports
   * success had claimed its row before `s`.
   */
  predicate IsOver(s: State, t: State, family: Family) {
    && (forall i <- t.rows ::
          t.rows[i].family == family ==>
            && (i in t.delivered ==> t.rows[i].revoked)
            && t.rows[i].replacedBy == (if i in s.rows then s.rows[i].replacedBy else None))
    && (forall q <- t.reqs ::
          t.reqs[q].Finished? && t.reqs[q].outcome.Rotated? ==>
            var p := t.reqs[q].outcome.parent;
            p in t.rows
            && (t.rows[p].family == family ==>
                  p in s.rows && s.rows[p].replacedBy == Some(t.reqs[q].outcome.child)))
  }

  /**
   * Once a `revokeFamily` or `revokeAll` has committed on a family, nothing of it is ever
   * accepted again, whatever was in flight then and whatever is presented later, also if a
   * token of it is delivered afterwards.
   */
  lemma {:induction false} RevokedFamilyIsOver(s: State, events: seq<Event>, family: Family)
    requires Reachable(s) && family in s.dead
    ensures IsOver(s, Run(s, events), family)
  {
    ReachableInv(s);
    RunFreezes(s, events, family);
    RunKeepsInv(s, events);
    var t := Run(s, events);
    forall i <- t.rows | t.rows[i].family == family && i in t.delivered ensures t.rows[i].revoked {
      DeliveredIsNotLoose(t, i);
    }
    forall q <- t.reqs | t.reqs[q].Finished? && t.reqs[q].outcome.Rotated?
      ensures var p := t.reqs[q].outcome.parent;
        p in t.rows && t.rows[p].replacedBy == Some(t.reqs[q].outcome.child)
    {
      assert PcOk(t, q, t.reqs[q]);
    }
  }

  /** Signing a user out everywhere ends, in the same way, every session the user has at that time. */
  lemma {:induction false} SignedOutUserIsOver(s: State, events: seq<Event>, user: User)
    requires Reachable(s)
    ensures var out := Next(s, SignOutAll(user));
            && out.rows.Keys == s.rows.Keys
            && (forall i <- s.rows ::
                  out.rows[i] == if s.rows[i].user == user then s.rows[i].(revoked := true) else s.rows[i])
            && (forall f <- s.logins :: s.logins[f].user == user ==> IsOver(out, Run(out, events), f))
  {
    hide Run, Inv, Reachable, IsOver;
    var out := Next(s, SignOutAll(user));
    assert out == DoSignOutAll(s, user);
    ReachableNext(s, SignOutAll(user));
    forall f <- s.logins | s.logins[f].user == user ensures IsOver(out, Run(out, events), f) {
      RevokedFamilyIsOver(out, events, f);
    }
  }

  /**
   * A row of a revoked family that is still unrevoked was issued by a request that is
   * between issuing it and revoking, or died there; its token never reached anybody.
   */
  lemma {:induction false} UnrevokedRowsAreOrphans(s: State, family: Family, id: Id)
    requires Reachable(s) && family in s.dead
    requires id in s.rows && s.rows[id].family == family && !s.rows[id].revoked
    ensures id !in s.delivered
    ensures exists q <- s.reqs :: Loose(s.reqs[q]) == Some(id)
  {
    ReachableInv(s);
    assert RowOk(s, id);
    if id in s.delivered {
      DeliveredIsNotLoose(s, id);
    }
  }

  /**
   * So once no request, alive or dead, holds a replacement it never installed (in
   * particular when none is in flight and none died there), the whole family is revoked.
   */
  lemma {:induction false} QuietDeadFamilyIsAllRevoked(s: State, family: Family)
    requires Reachable(s) && family in s.dead
    requires forall q <- s.reqs :: Loose(s.reqs[q]).None?
    ensures forall i <- s.rows :: s.rows[i].family == family ==> s.rows[i].revoked
  {
    forall i <- s.rows | s.rows[i].family == family ensures s.rows[i].revoked {
      if !s.rows[i].revoked {
        UnrevokedRowsAreOrphans(s, family, i);
      }
    }
  }

  // ------------------------------------------------------------ reuse is always noticed

  /** The row a request presented, once known. */
  function Presents(pc: Pc): Option<Id> {
    match pc
    case Presented(Minted(id)) => Some(id)
    case Issuing(snap) => Some(snap.id)
    case Claiming(snap, _) => Some(snap.id)
    case Answering(snap, _) => Some(snap.id)
    case Revoking(snap, _) => Some(snap.id)
    case Finished(Rotated(parent, _)) => Some(parent)
    case Finished(Expired(parent)) => Some(parent)
    case Finished(Reuse(parent)) => Some(parent)
    case _ => None
  }

  lemma {:induction false} StepExpires(s: State, e: Event, q: Req, id: Id)
    requires id in s.rows && s.rows[id].replacedBy.Some?
    requires q in Next(s, e).reqs && Next(s, e).reqs[q] == Finished(Expired(id))
    ensures q in s.reqs && s.reqs[q] == Finished(Expired(id))
  {
  }

  /** A request can be turned away as expired only while the row it presents is unreplaced. */
  lemma {:induction false} ExpiredIsOld(s: State, events: seq<Event>, q: Req, id: Id)
    requires Inv(s) && id in s.rows && s.rows[id].replacedBy.Some?
    requires q in Run(s, events).reqs && Run(s, events).reqs[q] == Finished(Expired(id))
    ensures q in s.reqs && s.reqs[q] == Finished(Expired(id))
    decreases |events|
  {
    if events != [] {
      var before := events[..|events| - 1];
      RunKeepsRows(s, before);
      var u, e := Run(s, before), events[|events| - 1];
      assert u.rows[id].replacedBy.Some?;
      StepExpires(u, e, q, id);
      ExpiredIsOld(s, before, q, id);
    }
  }

  lemma {:induction false} StepKeepsPresenting(s: State, e: Event, q: Req, id: Id)
    requires Inv(s) && q in s.reqs && Presents(s.reqs[q]) == Some(id)
    ensures var t := Next(s, e); q in t.reqs && (Presents(t.reqs[q]) == Some(id) || t.reqs[q].Crashed?)
  {
    assert PcOk(s, q, s.reqs[q]);
  }

  /** A request never forgets which row it presented: in particular it cannot end as unknown. */
  lemma {:induction false} PresentationIsKept(s: State, events: seq<Event>, q: Req, id: Id)
    requires Inv(s) && q in s.reqs && Presents(s.reqs[q]) == Some(id)
    ensures var t := Run(s, events); q in t.reqs && (Presents(t.reqs[q]) == Some(id) || t.reqs[q].Crashed?)
    decreases |events|
  {
    hide Inv, Next;
    if events != [] {
      var before, e := events[..|events| - 1], events[|events| - 1];
      PresentationIsKept(s, before, q, id);
      RunKeepsInv(s, before);
      var u := Run(s, before);
      if u.reqs[q].Crashed? {
        CrashedStays(u, e, q);
      } else {
        StepKeepsPresenting(u, e, q, id);
      }
    }
  }

  lemma {:induction false} CrashedStays(s: State, e: Event, q: Req)
    requires q in s.reqs && s.reqs[q].Crashed?
    ensures q in Next(s, e).reqs && Next(s, e).reqs[q] == s.reqs[q]
  {
  }

  /** What can have become of a request that presented a row replaced by `child`, seen from an earlier state. */
  predicate PresenterEnds(s: State, t: State, q: Req, id: Id, child: Id) {
    && q in t.reqs && id in t.rows && child in t.birth && t.birth[child].ByRotation?
    && match t.reqs[q]
       case Crashed(_) => true
       case Finished(Rotated(_, c)) => c == child && q == t.birth[child].req
       case Finished(Expired(_)) => q in s.reqs && s.reqs[q] == t.reqs[q]
       case Finished(Reuse(_)) => t.rows[id].family in t.dead
       case Finished(_) => false
       case pc => Presents(pc) == Some(id)
  }

  lemma {:induction false} PresenterHasEnded(s: State, events: seq<Event>, id: Id, q: Req)
    requires Inv(s) && id in s.rows && s.rows[id].replacedBy.Some?
    requires q in Run(s, events).reqs
    requires Presents(Run(s, events).reqs[q]) == Some(id) || Run(s, events).reqs[q].Crashed?
    ensures PresenterEnds(s, Run(s, events), q, id, s.rows[id].replacedBy.value)
  {
    RunKeepsInv(s, events);
    RunKeepsRows(s, events);
    var t := Run(s, events);
    assert PcOk(t, q, t.reqs[q]);
    assert RowOk(t, id);
    if t.reqs[q] == Finished(Expired(id)) {
      ExpiredIsOld(s, events, q, id);
    }
  }

  /**
   * If a token was rotated, then whoever presents it, before that or later (`s` may be any
   * state from the winning claim on, and the request presents the row after `k` more steps),
   * is still at it or died at it in every continuation, unless it is the one that rotated it
   * or is rejected as reuse with the family revoked. The one exception is a request already
   * turned away as expired when the claim was made.
   */
  lemma {:induction false} EveryOtherPresentationIsReuse(s: State, events: seq<Event>, k: nat, id: Id, q: Req)
    requires Reachable(s) && id in s.rows && s.rows[id].replacedBy.Some?
    requires k <= |events| && q in Run(s, events[..k]).reqs
    requires Presents(Run(s, events[..k]).reqs[q]) == Some(id)
    ensures PresenterEnds(s, Run(s, events), q, id, s.rows[id].replacedBy.value)
  {
    hide Inv, Next, PresenterEnds;
    ReachableInv(s);
    RunKeepsInv(s, events[..k]);
    RunAppend(s, events[..k], events[k..]);
    assert events[..k] + events[k..] == events;
    PresentationIsKept(Run(s, events[..k]), events[k..], q, id);
    PresenterHasEnded(s, events, id, q);
  }

  // ------------------------------------------------------------ one login, one chain

  /** The rows reached from `id` along `replacedById`. */
  function Chain(s: State, id: Id): (chain: seq<Id>)
    requires id in s.rows
    ensures |chain| > 0 && chain[0] == id
    decreases s.nextId - id
  {
    var next := s.rows[id].replacedBy;
    if next.Some? && next.value in s.rows && id < next.value < s.nextId
    then [id] + Chain(s, next.value) else [id]
  }

  lemma {:induction false} ChainLinks(s: State, id: Id, k: nat)
    requires Inv(s) && id in s.rows && k < |Chain(s, id)|
    ensures var chain := Chain(s, id);
      && chain[k] in s.rows && s.rows[chain[k]].family == s.rows[id].family
      && (k + 1 < |chain| ==>
            && s.rows[chain[k]].replacedBy == Some(chain[k + 1])
            && chain[k] < chain[k + 1]
            && chain[k] in s.delivered)
      && (k + 1 == |chain| ==> s.rows[chain[k]].replacedBy.None?)
    decreases k
  {
    assert RowOk(s, id);
    var next := s.rows[id].replacedBy;
    if next.Some? {
      assert BirthOk(s, next.value);
      if k > 0 {
        ChainLinks(s, next.value, k - 1);
      }
    }
  }

  lemma {:induction false} ChainExtends(s: State, root: Id, id: Id, child: Id)
    requires Inv(s) && root in s.rows && id in Chain(s, root) && id in s.rows
    requires s.rows[id].replacedBy == Some(child)
    ensures child in Chain(s, root)
  {
    var chain := Chain(s, root);
    var k :| 0 <= k < |chain| && chain[k] == id;
    ChainLinks(s, root, k);
    assert chain[k + 1] == child;
  }

  lemma {:induction false} DeliveredIsInChain(s: State, id: Id)
    requires Inv(s) && id in s.delivered
    ensures id in s.rows && s.rows[id].family in s.logins
    ensures var root := s.logins[s.rows[id].family].root; root in s.rows && id in Chain(s, root)
    decreases id
  {
    assert RowOk(s, id) && BirthOk(s, id);
    if s.birth[id].ByRotation? {
      var parent := s.birth[id].parent;
      DeliveredIsInChain(s, parent);
      ChainExtends(s, s.logins[s.rows[id].family].root, parent, id);
    } else {
      assert Chain(s, id)[0] == id;
    }
  }

  /** `a` was handed out and `b` was installed as its replacement, later. */
  predicate Link(s: State, a: Id, b: Id) {
    a in s.rows && s.rows[a].replacedBy == Some(b) && a < b && a in s.delivered
  }

  /**
   * The tokens one login has put in a client's hands lie on one chain from its first
   * row, which strictly grows (so it has no cycle), all of whose rows but the last are
   * replaced and were delivered; the only unreplaced token handed out is its last row.
   */
  lemma {:induction false} OneLoginOneChain(s: State, family: Family)
    requires Reachable(s) && family in s.logins
    ensures s.logins[family].root in s.rows && s.delivered <= s.rows.Keys
    ensures var chain := Chain(s, s.logins[family].root);
      && (forall k :: 0 <= k < |chain| - 1 ==> Link(s, chain[k], chain[k + 1]))
      && (forall id <- s.delivered :: s.rows[id].family == family ==>
            && id in chain
            && (s.rows[id].replacedBy.None? ==> id == chain[|chain| - 1]))
  {
    ReachableInv(s);
    var root := s.logins[family].root;
    var chain := Chain(s, root);
    forall k | 0 <= k < |chain| - 1 ensures Link(s, chain[k], chain[k + 1]) {
      ChainLinks(s, root, k);
    }
    forall id <- s.delivered | s.rows[id].family == family
      ensures id in chain && (s.rows[id].replacedBy.None? ==> id == chain[|chain| - 1])
    {
      DeliveredIsInChain(s, id);
      var k :| 0 <= k < |chain| && chain[k] == id;
      ChainLinks(s, root, k);
    }
  }

  /** A row carries a second factor only from a mark on it or on a row it was issued from, at that very time. */
  lemma {:induction false} SecondFactorHasLineage(s: State, id: Id)
    requires Reachable(s) && id in s.rows && s.rows[id].mfaAt.Some?
    ensures Lineage(s.birth, s.marks, id, s.rows[id].mfaAt.value)
  {
    ReachableInv(s);
    assert RowOk(s, id);
  }

  lemma {:induction false} ALogin() returns (s: State)
    ensures Reachable(s) && s.dead == {} && s.nextId == 1 && s.delivered == {0}
    ensures s.rows == map[0 := Row(7, 0, 100, false, None, None)] && s.logins == map[0 := Login(7, 0)]
    ensures s.reqs == map[0 := Finished(LoggedIn(0))]
  {
    hide DoPresent, DoLook, DoIssue, DoClaim, DoRevoke, DoCrash, DoSignOut, DoSignOutFamily, DoSignOutAll, DoMarkMfa;
    assert Run(Initial, []) == Initial;
    s := Initial;
    ReachableNext(s, SignIn(0, 7, 100)); s := Next(s, SignIn(0, 7, 100));
    ReachableNext(s, Answer(0)); s := Next(s, Answer(0));
  }

  lemma {:induction false} ARotationInFlight() returns (s: State)
    ensures Reachable(s) && s.dead == {} && s.nextId == 1
    ensures s.rows == map[0 := Row(7, 0, 100, false, None, None)] && s.logins == map[0 := Login(7, 0)]
    ensures s.reqs == map[0 := Finished(LoggedIn(0)), 1 := Issuing(Snapshot(0, 7, 0, None))]
  {
    s := ALogin();
    hide Reachable, Run, DoSignIn, DoIssue, DoClaim, DoRevoke, DoAnswer, DoCrash, DoSignOut, DoSignOutFamily,
      DoSignOutAll, DoMarkMfa;
    ReachableNext(s, Present(1, Minted(0))); s := Next(s, Present(1, Minted(0)));
    ReachableNext(s, Look(1, 5)); s := Next(s, Look(1, 5));
  }

  /**
   * The orphan is real: a rotation that dies between issuing and claiming, after the
   * family was revoked, leaves an unrevoked row with nobody in flight.
   */
  lemma {:induction false} CrashLeavesAnOrphan() returns (s: State)
    ensures Reachable(s) && 0 in s.dead
    ensures 1 in s.rows && s.rows[1].family == 0 && !s.rows[1].revoked
    ensures forall q <- s.reqs :: !InFlight(s.reqs[q])
  {
    hide Reachable, Run, DoSignIn, DoPresent, DoLook, DoClaim, DoRevoke, DoAnswer, DoSignOut, DoSignOutAll, DoMarkMfa;
    s := ARotationInFlight();
    ReachableNext(s, SignOutFamily(7, 0)); s := Next(s, SignOutFamily(7, 0));
    ReachableNext(s, Issue(1, 200)); s := Next(s, Issue(1, 200));
    ReachableNext(s, Crash(1)); s := Next(s, Crash(1));
  }
}
