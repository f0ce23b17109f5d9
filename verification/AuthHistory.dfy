/** What a whole run of the identity service means for sessions: sweeps, histories and touches. */
module AuthHistory {
  import opened Calls
  import opened Histories
  import opened Auth
  import P = Passwords

  /** An operation, and the hash registry of the deployment that serves it: later deployments may
      prefer other schemes. */
  datatype Event = Event(registry: P.Registry, now: int, op: Op)

  /** An event, the number it would have drawn, and what its caller was told. */
  datatype Entry = Entry(now: int, op: Op, number: nat, answer: Answer)

  datatype Trace = Trace(state: State, log: seq<Entry>)

  function Run(ttl: int, events: seq<Event>): (trace: Trace)
    ensures Consistent(trace.state) && |trace.log| == |events|
  {
    if |events| == 0 then Trace(EMPTY, [])
    else
      var n := |events| - 1;
      var before := Run(ttl, events[..n]);
      var Event(r, now, op) := events[n];
      var result := Exec(r, ttl, before.state, now, op);
      ExecConsistent(r, ttl, before.state, now, op);
      Trace(result.state, before.log + [Entry(now, op, before.state.issued, result.answer)])
  }

  /** The clock never goes back. */
  predicate Ordered(events: seq<Event>) {
    forall i, j :: 0 <= i < j < |events| ==> events[i].now <= events[j].now
  }

  // ---------------------------------------------------------------- sweeps cannot be observed

  function WithoutSweeps(events: seq<Event>): seq<Event> {
    if |events| == 0 then []
    else (if events[0].op.DeleteExpiredSessions? then [] else [events[0]]) + WithoutSweeps(events[1..])
  }

  /** What the callers of everything but the sweep are told. */
  function Answers(ttl: int, st: State, events: seq<Event>): seq<Answer>
    requires Consistent(st)
    decreases |events|
  {
    if |events| == 0 then []
    else
      var Event(r, now, op) := events[0];
      var result := Exec(r, ttl, st, now, op);
      ExecConsistent(r, ttl, st, now, op);
      (if op.DeleteExpiredSessions? then [] else [result.answer]) + Answers(ttl, result.state, events[1..])
  }

  predicate SameSession(a: State, b: State, t: Id) {
    t in a.sessions && t in b.sessions && a.sessions[t] == b.sessions[t]
  }

  /** The same but for sessions that have expired. */
  ghost predicate Agree(a: State, b: State, now: int) {
    && a.users == b.users && a.issued == b.issued
    && (forall t :: t in a.sessions && now < a.sessions[t].expires ==> SameSession(a, b, t))
    && (forall t :: t in b.sessions && now < b.sessions[t].expires ==> SameSession(a, b, t))
  }

  /** The same answer, and states that agree. */
  ghost predicate SameResult(a: Result, b: Result, now: int) {
    a.answer == b.answer && Agree(a.state, b.state, now)
  }

  lemma SweepAgrees(a: State, b: State, before: int, now: int)
    requires Agree(a, b, before) && before <= now
    ensures Agree(DropExpired(a, now), b, now)
  {
  }

  lemma CreateAgrees(ttl: int, a: State, b: State, before: int, now: int, op: Op)
    requires Agree(a, b, before) && before <= now && op.CreateSession?
    ensures SameResult(DoCreateSession(ttl, a, now, op), DoCreateSession(ttl, b, now, op), now)
  {
  }

  lemma RevokeAgrees(a: State, b: State, now: int, token: Id)
    requires Agree(a, b, now)
    ensures Agree(DropToken(a, token), DropToken(b, token), now)
  {
  }

  /** One side may still hold the expired session, and drops it. */
  lemma DropExpiredTokenAgrees(a: State, b: State, now: int, token: Id)
    requires Agree(a, b, now) && token in a.sessions && a.sessions[token].Expired(now)
    ensures Agree(DropToken(a, token), b, now) && Agree(b, DropToken(a, token), now)
    ensures token in b.sessions ==> b.sessions[token].Expired(now)
  {
  }

  lemma TouchAgrees(a: State, b: State, now: int, token: Id, row: Session)
    requires Agree(a, b, now)
    ensures Agree(a.(sessions := a.sessions[token := row]), b.(sessions := b.sessions[token := row]), now)
  {
  }

  lemma ResolveAgrees(a: State, b: State, now: int, op: Op)
    requires Agree(a, b, now) && op.ResolveSession?
    ensures SameResult(DoResolve(a, now, op), DoResolve(b, now, op), now)
  {
    var token := op.token;
    var liveA := token in a.sessions && now < a.sessions[token].expires;
    var liveB := token in b.sessions && now < b.sessions[token].expires;
    if liveA || liveB {
      assert SameSession(a, b, token);
      TouchAgrees(a, b, now, token, a.sessions[token].(lastSeen := now));
    } else {
      RevokeAgrees(a, b, now, token);
      if token in a.sessions { DropExpiredTokenAgrees(a, b, now, token); }
      if token in b.sessions { DropExpiredTokenAgrees(b, a, now, token); }
    }
  }

  /** Operations on accounts, and dropping sessions, do the same to both. */
  lemma AccountStepAgrees(a: State, b: State, before: int, now: int)
    requires Agree(a, b, before) && before <= now
    ensures Agree(a, b, now)
    ensures forall id, user, fate ::
              && UpdateUser(a, id, user, fate).answer == UpdateUser(b, id, user, fate).answer
              && Agree(UpdateUser(a, id, user, fate).state, UpdateUser(b, id, user, fate).state, now)
    ensures forall id, user, fate ::
              && InsertUser(Draw(a), id, user, fate).answer == InsertUser(Draw(b), id, user, fate).answer
              && Agree(InsertUser(Draw(a), id, user, fate).state, InsertUser(Draw(b), id, user, fate).state, now)
  {
  }

  lemma DropAgrees(a: State, b: State, now: int, user: Id, keep: Option<Id>)
    requires Agree(a, b, now)
    ensures Agree(DropOthers(a, user, keep), DropOthers(b, user, keep), now)
    ensures Agree(DropUser(a, user), DropUser(b, user), now)
  {
  }

  lemma AuthenticateAgrees(r: P.Registry, a: State, b: State, before: int, now: int, op: Op)
    requires Consistent(a) && Consistent(b) && Agree(a, b, before) && before <= now && op.Authenticate?
    ensures SameResult(DoAuthenticate(r, a, op), DoAuthenticate(r, b, op), now)
  {
    AccountStepAgrees(a, b, before, now);
    assert FindUser(a, op.username) == FindUser(b, op.username);
    var hashed := P.HashWith(r, op.password, op.salt);
    if FindUser(a, op.username).Some? && hashed.Encoded? {
      var id := FindUser(a, op.username).value;
      var row := a.users[id].(passwordHash := hashed.text);
      assert UpdateUser(a, id, row, op.update).answer == UpdateUser(b, id, row, op.update).answer;
    }
  }

  lemma StoringAgrees(a: State, b: State, now: int, id: Id, row: User, fate: Fate, keep: Option<Id>)
    requires Agree(a, b, now)
    ensures var forA, forB := UpdateUser(a, id, row, fate), UpdateUser(b, id, row, fate);
            && forA.answer == forB.answer && Agree(forA.state, forB.state, now)
            && Agree(DropOthers(forA.state, id, keep), DropOthers(forB.state, id, keep), now)
  {
    var forA, forB := UpdateUser(a, id, row, fate), UpdateUser(b, id, row, fate);
    AccountStepAgrees(a, b, now, now);
    DropAgrees(forA.state, forB.state, now, id, keep);
  }

  lemma PasswordAgrees(r: P.Registry, a: State, b: State, before: int, now: int, op: Op)
    requires Agree(a, b, before) && before <= now && op.ChangePassword?
    ensures SameResult(DoChangePassword(r, a, op), DoChangePassword(r, b, op), now)
  {
    AccountStepAgrees(a, b, before, now);
    var hashed := P.HashWith(r, op.password, op.salt);
    if op.user in a.users && hashed.Encoded? {
      StoringAgrees(a, b, now, op.user, a.users[op.user].(passwordHash := hashed.text), op.update, op.keep);
    }
  }

  lemma RegisterAgrees(r: P.Registry, a: State, b: State, before: int, now: int, op: Op)
    requires Agree(a, b, before) && before <= now && op.Register?
    ensures SameResult(DoRegister(r, a, op), DoRegister(r, b, op), now)
  {
    AccountStepAgrees(a, b, before, now);
    var hashed := P.HashWith(r, op.password, op.salt);
    if ValidUsername(op.username) && hashed.Encoded? {
      var row := User(op.username, op.name, hashed.text);
      assert InsertUser(Draw(a), a.issued, row, op.insert).answer
          == InsertUser(Draw(b), a.issued, row, op.insert).answer;
    }
  }

  lemma ProfileAgrees(a: State, b: State, before: int, now: int, op: Op)
    requires Agree(a, b, before) && before <= now && op.UpdateProfile?
    ensures SameResult(DoUpdateProfile(a, op), DoUpdateProfile(b, op), now)
  {
    AccountStepAgrees(a, b, before, now);
    if op.user in a.users {
      var row := a.users[op.user].(username := op.username, name := op.name);
      assert UpdateUser(a, op.user, row, op.update).answer == UpdateUser(b, op.user, row, op.update).answer;
    }
  }

  lemma SessionStepAgrees(r: P.Registry, ttl: int, a: State, b: State, now: int, op: Op)
    requires Consistent(a) && Consistent(b) && Agree(a, b, now)
    requires op.CreateSession? || op.ResolveSession? || op.RevokeSession?
    ensures SameResult(Exec(r, ttl, a, now, op), Exec(r, ttl, b, now, op), now)
  {
    match op
    case CreateSession(_, _) => CreateAgrees(ttl, a, b, now, now, op);
    case ResolveSession(_, _, _, _, _) => ResolveAgrees(a, b, now, op);
    case RevokeSession(token, _) => RevokeAgrees(a, b, now, token);
  }

  lemma ProfileStepAgrees(r: P.Registry, ttl: int, a: State, b: State, now: int, op: Op)
    requires Consistent(a) && Consistent(b) && Agree(a, b, now)
    requires op.Register? || op.UpdateProfile? || op.DeleteUser?
    ensures SameResult(Exec(r, ttl, a, now, op), Exec(r, ttl, b, now, op), now)
  {
    if op.Register? {
      RegisterAgrees(r, a, b, now, now, op);
    } else if op.UpdateProfile? {
      ProfileAgrees(a, b, now, now, op);
    } else {
      DropAgrees(a, b, now, op.user, None);
    }
  }

  lemma CredentialStepAgrees(r: P.Registry, ttl: int, a: State, b: State, now: int, op: Op)
    requires Consistent(a) && Consistent(b) && Agree(a, b, now)
    requires op.Authenticate? || op.ChangePassword?
    ensures SameResult(Exec(r, ttl, a, now, op), Exec(r, ttl, b, now, op), now)
  {
    if op.Authenticate? {
      AuthenticateAgrees(r, a, b, now, now, op);
    } else {
      PasswordAgrees(r, a, b, now, now, op);
    }
  }

  lemma StepAgrees(r: P.Registry, ttl: int, a: State, b: State, before: int, now: int, op: Op)
    requires Consistent(a) && Consistent(b) && Agree(a, b, before) && before <= now
    requires !op.DeleteExpiredSessions?
    ensures SameResult(Exec(r, ttl, a, now, op), Exec(r, ttl, b, now, op), now)
  {
    assert Agree(a, b, now);
    if op.CreateSession? || op.ResolveSession? || op.RevokeSession? {
      SessionStepAgrees(r, ttl, a, b, now, op);
    } else if op.Authenticate? || op.ChangePassword? {
      CredentialStepAgrees(r, ttl, a, b, now, op);
    } else {
      ProfileStepAgrees(r, ttl, a, b, now, op);
    }
  }

  lemma AnswersSkip(ttl: int, st: State, first: Event, rest: seq<Event>)
    requires Consistent(st) && first.op.DeleteExpiredSessions?
    ensures var after := Exec(first.registry, ttl, st, first.now, first.op).state;
            Consistent(after) && Answers(ttl, st, [first] + rest) == Answers(ttl, after, rest)
    ensures WithoutSweeps([first] + rest) == WithoutSweeps(rest)
  {
    ExecConsistent(first.registry, ttl, st, first.now, first.op);
    assert ([first] + rest)[1..] == rest;
  }

  lemma AnswersKeep(ttl: int, st: State, first: Event, rest: seq<Event>)
    requires Consistent(st) && !first.op.DeleteExpiredSessions?
    ensures var result := Exec(first.registry, ttl, st, first.now, first.op);
            Consistent(result.state)
            && Answers(ttl, st, [first] + rest) == [result.answer] + Answers(ttl, result.state, rest)
    ensures WithoutSweeps([first] + rest) == [first] + WithoutSweeps(rest)
  {
    ExecConsistent(first.registry, ttl, st, first.now, first.op);
    assert ([first] + rest)[1..] == rest;
  }

  lemma SweepStepAgrees(r: P.Registry, ttl: int, a: State, b: State, before: int, now: int, op: Op)
    requires Consistent(a) && Agree(a, b, before) && before <= now && op.DeleteExpiredSessions?
    ensures Agree(Exec(r, ttl, a, now, op).state, b, now)
  {
    AccountStepAgrees(a, b, before, now);
    SweepAgrees(a, b, before, now);
  }

  lemma LaterOrdered(events: seq<Event>)
    requires events != [] && Ordered(events)
    ensures Ordered(events[1..]) && (events[1..] != [] ==> events[0].now <= events[1..][0].now)
  {
  }

  lemma {:induction false} AgreeingRuns(ttl: int, a: State, b: State, before: int, events: seq<Event>)
    requires Consistent(a) && Consistent(b) && Agree(a, b, before)
    requires Ordered(events) && (events != [] ==> before <= events[0].now)
    ensures Answers(ttl, a, events) == Answers(ttl, b, WithoutSweeps(events))
    decreases |events|
  {
    if events != [] {
      var first, rest := events[0], events[1..];
      var Event(r, now, op) := first;
      assert events == [first] + rest;
      LaterOrdered(events);
      if op.DeleteExpiredSessions? {
        AnswersSkip(ttl, a, first, rest);
        SweepStepAgrees(r, ttl, a, b, before, now, op);
        AgreeingRuns(ttl, Exec(r, ttl, a, now, op).state, b, now, rest);
      } else {
        AnswersKeep(ttl, a, first, rest);
        AnswersKeep(ttl, b, first, WithoutSweeps(rest));
        StepAgrees(r, ttl, a, b, before, now, op);
        AgreeingRuns(ttl, Exec(r, ttl, a, now, op).state, Exec(r, ttl, b, now, op).state, now, rest);
      }
    }
  }

  /** Adding sweeps to a run, or taking them out, changes nothing anybody else is told. */
  lemma SweepIsInvisible(ttl: int, st: State, events: seq<Event>)
    requires Consistent(st) && Ordered(events)
    ensures Answers(ttl, st, events) == Answers(ttl, st, WithoutSweeps(events))
  {
    AgreeingRuns(ttl, st, st, if events == [] then 0 else events[0].now, events);
  }

  // ---------------------------------------------------------------- sessions and their history

  /** This event stored a session with that token for that account. */
  predicate Gives(e: Entry, t: Id, user: Id) {
    e.op.CreateSession? && e.op.user == user && e.number == t && e.op.insert.Lands() && e.answer != Failed(NoSuchUser)
  }

  /** This event revoked the token, changed the account's password without keeping the
      session, or deleted the account. */
  predicate Takes(e: Entry, t: Id, user: Id) {
    match e.op
    case RevokeSession(token, delete) => token == t && delete.Lands()
    case ChangePassword(owner, _, _, keep, _, _, _, drop) =>
      owner == user && keep != Some(t) && drop.Lands() && (e.answer == Done || e.answer == Failed(Dropping))
    case DeleteUser(owner, delete) => owner == user && delete.Lands() && e.answer != UserNotFound
    case _ => false
  }

  ghost predicate InForce(log: seq<Entry>, t: Id, user: Id, created: int) {
    Survives(log, (e: Entry) => Gives(e, t, user) && e.now == created, (e: Entry) => Takes(e, t, user))
  }

  /** Some expired session is cleared away by this event. */
  predicate Clears(e: Entry, t: Id, session: Session) {
    session.Expired(e.now)
    && match e.op
       case DeleteExpiredSessions(delete) => delete.Lands()
       case ResolveSession(token, readSession, delete, _, _) => token == t && readSession && delete.Lands()
       case _ => false
  }

  /** What one event does to one session. Nothing moves its owner or its times of creation and
      expiry. */
  ghost predicate SessionEffect(ttl: int, st: State, now: int, op: Op, result: Result, t: Id) {
    var e := Entry(now, op, st.issued, result.answer);
    && (t in result.state.sessions <==>
          || (exists user :: Gives(e, t, user))
          || (t in st.sessions && !Takes(e, t, st.sessions[t].user) && !Clears(e, t, st.sessions[t])))
    && (forall user :: Gives(e, t, user) ==>
          && t !in st.sessions && t in result.state.sessions
          && result.state.sessions[t] == Session(user, now, now + ttl, now))
    && (t in st.sessions && t in result.state.sessions ==>
          var old', new' := st.sessions[t], result.state.sessions[t];
          old' == new'.(lastSeen := old'.lastSeen)
          && new'.lastSeen == if Touches(st, now, op) && op.token == t then now else old'.lastSeen)
  }

  lemma AccountOpEffect(r: P.Registry, ttl: int, st: State, now: int, op: Op, t: Id)
    requires Consistent(st) && (op.Register? || op.Authenticate? || op.UpdateProfile?)
    ensures SessionEffect(ttl, st, now, op, Exec(r, ttl, st, now, op), t)
  {
    assert Exec(r, ttl, st, now, op).state.sessions == st.sessions;
  }

  lemma CreateEffect(ttl: int, st: State, now: int, op: Op, t: Id)
    requires Consistent(st) && op.CreateSession?
    ensures SessionEffect(ttl, st, now, op, DoCreateSession(ttl, st, now, op), t)
  {
    var e := Entry(now, op, st.issued, DoCreateSession(ttl, st, now, op).answer);
    assert Gives(e, t, op.user) <==> exists user :: Gives(e, t, user);
  }

  lemma ResolveEffect(ttl: int, st: State, now: int, op: Op, t: Id)
    requires Consistent(st) && op.ResolveSession?
    ensures SessionEffect(ttl, st, now, op, DoResolve(st, now, op), t)
  {
  }

  lemma PasswordEffect(r: P.Registry, ttl: int, st: State, now: int, op: Op, t: Id)
    requires Consistent(st) && op.ChangePassword?
    ensures SessionEffect(ttl, st, now, op, DoChangePassword(r, st, op), t)
  {
  }

  lemma OneSession(r: P.Registry, ttl: int, st: State, now: int, op: Op, t: Id)
    requires Consistent(st)
    ensures SessionEffect(ttl, st, now, op, Exec(r, ttl, st, now, op), t)
  {
    match op
    case CreateSession(_, _) => CreateEffect(ttl, st, now, op, t);
    case ResolveSession(_, _, _, _, _) => ResolveEffect(ttl, st, now, op, t);
    case ChangePassword(_, _, _, _, _, _, _, _) => PasswordEffect(r, ttl, st, now, op, t);
    case Register(_, _, _, _, _) => AccountOpEffect(r, ttl, st, now, op, t);
    case Authenticate(_, _, _, _, _) => AccountOpEffect(r, ttl, st, now, op, t);
    case UpdateProfile(_, _, _, _, _) => AccountOpEffect(r, ttl, st, now, op, t);
    case _ =>
  }

  /** The table holds a session only if history says so; history says so only if the table
      holds the session or its time is up. */
  lemma {:induction false} TableMatchesHistory(ttl: int, events: seq<Event>, t: Id, user: Id, created: int)
    requires Ordered(events)
    ensures var trace := Run(ttl, events);
            && (t in trace.state.sessions ==>
                  var row := trace.state.sessions[t];
                  row.expires == row.created + ttl && InForce(trace.log, t, row.user, row.created))
            && (InForce(trace.log, t, user, created) ==>
                  && events != []
                  && (|| (t in trace.state.sessions && trace.state.sessions[t].user == user
                          && trace.state.sessions[t].created == created)
                      || created + ttl <= events[|events| - 1].now))
  {
    var trace := Run(ttl, events);
    if events != [] {
      var n := |events| - 1;
      var before := Run(ttl, events[..n]);
      var Event(r, now, op) := events[n];
      var e := trace.log[n];
      assert trace.log == before.log + [e];
      TableMatchesHistory(ttl, events[..n], t, user, created);
      OneSession(r, ttl, before.state, now, op, t);
      HistoryStep(before.log, e, t, user, created);
      if t in trace.state.sessions {
        var row := trace.state.sessions[t];
        TableMatchesHistory(ttl, events[..n], t, row.user, row.created);
        HistoryStep(before.log, e, t, row.user, row.created);
      }
      if n > 0 {
        assert events[..n][n - 1].now <= now;
      }
    }
  }

  lemma HistoryStep(log: seq<Entry>, e: Entry, t: Id, user: Id, created: int)
    ensures InForce(log + [e], t, user, created)
       <==> (Gives(e, t, user) && e.now == created) || (InForce(log, t, user, created) && !Takes(e, t, user))
  {
    SurvivesOneMore(log, e, (x: Entry) => Gives(x, t, user) && x.now == created, (x: Entry) => Takes(x, t, user));
  }

  /** A token resolves exactly when it was issued, neither revoked nor dropped by a password
      change nor lost with its account since, and its lifetime is not over. */
  lemma ResolvesExactlyWhen(r: P.Registry, ttl: int, events: seq<Event>, t: Id, now: int, delete: Fate, touch: Fate)
    requires Ordered(events) && (events != [] ==> events[|events| - 1].now <= now)
    ensures Exec(r, ttl, Run(ttl, events).state, now, ResolveSession(t, true, delete, true, touch)).answer.Resolved?
       <==> exists user, created :: InForce(Run(ttl, events).log, t, user, created) && now < created + ttl
  {
    var trace := Run(ttl, events);
    if t in trace.state.sessions {
      var row := trace.state.sessions[t];
      TableMatchesHistory(ttl, events, t, row.user, row.created);
    }
    if user, created :| InForce(trace.log, t, user, created) && now < created + ttl {
      TableMatchesHistory(ttl, events, t, user, created);
    }
  }

  // ---------------------------------------------------------------- touching

  /** How often the run has written when this session was last seen. */
  function TouchCount(ttl: int, events: seq<Event>, t: Id): nat {
    if |events| == 0 then 0
    else
      var n := |events| - 1;
      var Event(r, now, op) := events[n];
      TouchCount(ttl, events[..n], t)
      + (if Touches(Run(ttl, events[..n]).state, now, op) && op.token == t then 1 else 0)
  }

  /** A session is seen between its creation and its expiry, and each touch took an hour of
      that time. */
  predicate Seen(ttl: int, st: State, t: Id, touches: nat, now: int) {
    && touches * HOUR < ttl
    && (t >= st.issued ==> touches == 0)
    && (t in st.sessions ==>
          var row := st.sessions[t];
          && row.expires == row.created + ttl
          && row.created + touches * HOUR <= row.lastSeen < row.expires
          && row.lastSeen <= now)
  }

  lemma SeenStep(r: P.Registry, ttl: int, st: State, now: int, op: Op, t: Id, touches: nat)
    requires Consistent(st) && ttl > 0 && Seen(ttl, st, t, touches, now)
    ensures Seen(ttl, Exec(r, ttl, st, now, op).state, t,
                 touches + (if Touches(st, now, op) && op.token == t then 1 else 0), now)
  {
    OneSession(r, ttl, st, now, op, t);
  }

  /** Touches are an hour apart and stop at expiry, so an hour for each is less than the lifetime. */
  lemma {:induction false} TouchesFit(ttl: int, events: seq<Event>, t: Id)
    requires ttl > 0 && Ordered(events)
    ensures Seen(ttl, Run(ttl, events).state, t, TouchCount(ttl, events, t),
                 if events == [] then 0 else events[|events| - 1].now)
    ensures TouchCount(ttl, events, t) * HOUR < ttl
  {
    if events != [] {
      var n := |events| - 1;
      var Event(r, now, op) := events[n];
      TouchesFit(ttl, events[..n], t);
      if n > 0 {
        assert events[..n][n - 1].now <= now;
      }
      SeenStep(r, ttl, Run(ttl, events[..n]).state, now, op, t, TouchCount(ttl, events[..n], t));
    }
  }

  // ---------------------------------------------------------------- single calls

  /** A reported password change leaves the user the kept session and nobody else any less. */
  lemma PasswordChangeRevokes(r: P.Registry, st: State, op: Op)
    requires op.ChangePassword? && DoChangePassword(r, st, op).answer == Done
    ensures var after := DoChangePassword(r, st, op).state;
            && (forall t :: t in after.sessions <==>
                  (t in st.sessions && (st.sessions[t].user != op.user || op.keep == Some(t))))
            && (forall t :: t in after.sessions ==> after.sessions[t] == st.sessions[t])
  {
  }

  lemma IssuedGrows(r: P.Registry, ttl: int, st: State, now: int, op: Op)
    requires Consistent(st)
    ensures st.issued <= Exec(r, ttl, st, now, op).state.issued
  {
  }

  lemma WholePrefix(events: seq<Event>)
    ensures events[..|events|] == events
  {
  }

  lemma GoneStaysGone(r: P.Registry, ttl: int, st: State, now: int, op: Op, t: Id)
    requires Consistent(st) && t < st.issued && t !in st.sessions
    ensures var after := Exec(r, ttl, st, now, op).state;
            t < after.issued && t !in after.sessions
  {
    IssuedGrows(r, ttl, st, now, op);
    OneSession(r, ttl, st, now, op, t);
  }

  /** A token that is gone never comes back. */
  lemma {:induction false} GoneForGood(ttl: int, events: seq<Event>, k: nat, t: Id)
    requires k <= |events|
    requires t < Run(ttl, events[..k]).state.issued && t !in Run(ttl, events[..k]).state.sessions
    ensures t < Run(ttl, events).state.issued && t !in Run(ttl, events).state.sessions
    decreases |events|
  {
    if k == |events| {
      WholePrefix(events);
    } else {
      var n := |events| - 1;
      var e := events[n];
      TakeOfFront(events, k);
      GoneForGood(ttl, events[..n], k, t);
      FrontAndLast(events);
      RunLast(ttl, events[..n], e);
      GoneStaysGone(e.registry, ttl, Run(ttl, events[..n]).state, e.now, e.op, t);
    }
  }

  /** However a run goes on after a reported password change, no session that the user had
      before it, except the kept one, is ever resolved again. */
  lemma PasswordChangeIsFinal(ttl: int, events: seq<Event>, k: nat, t: Id, now: int, delete: Fate, touch: Fate)
    requires k < |events| && events[k].op.ChangePassword? && Run(ttl, events).log[k].answer == Done
    requires t in Run(ttl, events[..k]).state.sessions
    requires Run(ttl, events[..k]).state.sessions[t].user == events[k].op.user && events[k].op.keep != Some(t)
    ensures var r := events[|events| - 1].registry;
            Exec(r, ttl, Run(ttl, events).state, now, ResolveSession(t, true, delete, true, touch)).answer
            == SessionNotFound
  {
    LogOfPrefix(ttl, events, k);
    ChangeDrops(events[k].registry, ttl, Run(ttl, events[..k]).state, events[k].now, events[k].op, t);
    GoneForGood(ttl, events, k + 1, t);
    AbsentIsNotFound(Run(ttl, events).state, now, t, delete, touch);
  }

  lemma ChangeDrops(r: P.Registry, ttl: int, st: State, now: int, op: Op, t: Id)
    requires Consistent(st) && op.ChangePassword? && Exec(r, ttl, st, now, op).answer == Done
    requires t in st.sessions && st.sessions[t].user == op.user && op.keep != Some(t)
    ensures t !in Exec(r, ttl, st, now, op).state.sessions && t < Exec(r, ttl, st, now, op).state.issued
  {
    PasswordChangeRevokes(r, st, op);
    IssuedGrows(r, ttl, st, now, op);
  }

  lemma AbsentIsNotFound(st: State, now: int, t: Id, delete: Fate, touch: Fate)
    requires t !in st.sessions
    ensures DoResolve(st, now, ResolveSession(t, true, delete, true, touch)).answer == SessionNotFound
  {
  }

  lemma RunLast(ttl: int, earlier: seq<Event>, e: Event)
    ensures var before := Run(ttl, earlier);
            var result := Exec(e.registry, ttl, before.state, e.now, e.op);
            var answered := Entry(e.now, e.op, before.state.issued, result.answer);
            Run(ttl, earlier + [e]) == Trace(result.state, before.log + [answered])
  {
    var events := earlier + [e];
    assert events[..|events| - 1] == earlier && events[|events| - 1] == e;
  }

  lemma FrontAndLast(events: seq<Event>)
    requires events != []
    ensures events == events[..|events| - 1] + [events[|events| - 1]]
  {
  }

  lemma TakeOfFront(events: seq<Event>, k: nat)
    requires events != [] && k <= |events| - 1
    ensures events[..|events| - 1][..k] == events[..k]
  {
  }

  lemma EarlierEntry(log: seq<Entry>, last: Entry, k: nat)
    requires k < |log|
    ensures (log + [last])[k] == log[k]
  {
  }

  /** The k-th entry of a log is what the k-th event answered. */
  lemma {:induction false} LogOfPrefix(ttl: int, events: seq<Event>, k: nat)
    requires k < |events|
    ensures var before, e := Run(ttl, events[..k]).state, events[k];
            var result := Exec(e.registry, ttl, before, e.now, e.op);
            && Run(ttl, events).log[k] == Entry(e.now, e.op, before.issued, result.answer)
            && Run(ttl, events[..k + 1]).state == result.state
    decreases |events|
  {
    var n := |events| - 1;
    FrontAndLast(events);
    RunLast(ttl, events[..n], events[n]);
    if k == n {
      WholePrefix(events);
    } else {
      LogOfPrefix(ttl, events[..n], k);
      TakeOfFront(events, k);
      TakeOfFront(events, k + 1);
      EarlierEntry(Run(ttl, events[..n]).log, Run(ttl, events).log[n], k);
    }
  }
}
