/** What the log of a run says about an account's names, its sessions and every answer about them. */
module AccountHistory {
  import opened Calls
  import opened Auth
  import opened AuthHistory
  import P = Passwords

  // ---------------------------------------------------------------- names

  datatype Names = Names(username: string, name: string)

  /** An account's username and display name after one more event. */
  function NextNames(e: Entry, id: Id, last: Option<Names>): Option<Names> {
    match e.op
    case Register(username, name, _, _, insert) =>
      if e.number == id && insert.Lands() && (e.answer.Registered? || e.answer == Failed(Inserting))
      then Some(Names(username, name)) else last
    case UpdateProfile(user, username, name, _, update) =>
      if user == id && update.Lands() && e.answer in {Done, Failed(Updating)}
      then Some(Names(username, name)) else last
    case DeleteUser(user, delete) =>
      if user == id && delete.Lands() && e.answer != UserNotFound then None else last
    case _ => last
  }

  /** The names an account was last given, if the account exists. */
  function LastNames(log: seq<Entry>, id: Id): Option<Names> {
    if log == [] then None
    else NextNames(log[|log| - 1], id, LastNames(log[..|log| - 1], id))
  }

  function NamesIn(st: State, id: Id): Option<Names> {
    if id in st.users then Some(Names(st.users[id].username, st.users[id].name)) else None
  }

  /** This event's answer, as the log will hold it. */
  function EntryOf(ttl: int, st: State, e: Event): Entry
    requires Consistent(st)
  {
    Entry(e.now, e.op, st.issued, Exec(e.registry, ttl, st, e.now, e.op).answer)
  }

  lemma RegisterNames(r: P.Registry, st: State, op: Op, id: Id)
    requires Consistent(st) && op.Register?
    ensures var Result(after, answer) := DoRegister(r, st, op);
            NamesIn(after, id) == NextNames(Entry(0, op, st.issued, answer), id, NamesIn(st, id))
  {
  }

  /** Changing a password and replacing a hash at login change no name. */
  lemma CredentialsKeepNames(r: P.Registry, ttl: int, st: State, now: int, op: Op, id: Id)
    requires Consistent(st) && (op.Authenticate? || op.ChangePassword?)
    ensures NamesIn(Exec(r, ttl, st, now, op).state, id) == NamesIn(st, id)
  {
  }

  lemma NamesStep(ttl: int, st: State, e: Event, id: Id)
    requires Consistent(st)
    ensures NamesIn(Exec(e.registry, ttl, st, e.now, e.op).state, id)
         == NextNames(EntryOf(ttl, st, e), id, NamesIn(st, id))
  {
    if e.op.Register? {
      RegisterNames(e.registry, st, e.op, id);
    } else if e.op.Authenticate? || e.op.ChangePassword? {
      CredentialsKeepNames(e.registry, ttl, st, e.now, e.op, id);
    }
  }

  lemma NamesAfterLast(log: seq<Entry>, last: Entry, id: Id)
    ensures LastNames(log + [last], id) == NextNames(last, id, LastNames(log, id))
  {
    assert (log + [last])[..|log|] == log;
  }

  /** After every run an account's stored names are the ones it was last given: registered with,
      or set by a profile change. Nothing else writes them. */
  lemma {:induction false} StoredNamesAreLast(ttl: int, events: seq<Event>, id: Id)
    ensures NamesIn(Run(ttl, events).state, id) == LastNames(Run(ttl, events).log, id)
  {
    if events != [] {
      var n := |events| - 1;
      var earlier, e := events[..n], events[n];
      var before := Run(ttl, earlier);
      StoredNamesAreLast(ttl, earlier, id);
      NamesStep(ttl, before.state, e, id);
      FrontAndLast(events);
      RunLast(ttl, earlier, e);
      NamesAfterLast(before.log, EntryOf(ttl, before.state, e), id);
    }
  }

  /** By history, some account other than this one has the username. */
  ghost predicate InUse(log: seq<Entry>, username: string, except: Option<Id>) {
    exists id: Id :: LastNames(log, id).Some? && LastNames(log, id).value.username == username && except != Some(id)
  }

  lemma TakenByHistory(ttl: int, events: seq<Event>, username: string, except: Option<Id>)
    ensures Taken(Run(ttl, events).state, username, except) <==> InUse(Run(ttl, events).log, username, except)
  {
    var Trace(st, log) := Run(ttl, events);
    forall id: Id ensures NamesIn(st, id) == LastNames(log, id) {
      StoredNamesAreLast(ttl, events, id);
    }
    if Taken(st, username, except) {
      var id :| id in st.users && st.users[id].username == username && except != Some(id);
      assert LastNames(log, id) == NamesIn(st, id);
    }
    if InUse(log, username, except) {
      var id: Id :| LastNames(log, id).Some? && LastNames(log, id).value.username == username && except != Some(id);
      assert NamesIn(st, id) == LastNames(log, id);
    }
  }

  /** Registering succeeds exactly when the username is well formed and by history nobody's, the
      password can be hashed and the insert works; "taken" is said exactly of somebody's username. */
  lemma RegistersExactlyWhen(r: P.Registry, ttl: int, events: seq<Event>, now: int, op: Op)
    requires op.Register?
    ensures var Trace(st, log) := Run(ttl, events);
            var answer := Exec(r, ttl, st, now, op).answer;
            var sound := ValidUsername(op.username) && P.HashWith(r, op.password, op.salt).Encoded?;
            && (answer == Registered(st.issued) <==> sound && op.insert == Works && !InUse(log, op.username, None))
            && (answer == UsernameTaken <==> sound && op.insert != Fails && InUse(log, op.username, None))
            && (answer == InvalidUsername <==> !ValidUsername(op.username))
            && (answer.PasswordRefused? <==> ValidUsername(op.username) && !sound)
            && LastNames(log, st.issued) == None
  {
    var Trace(st, log) := Run(ttl, events);
    TakenByHistory(ttl, events, op.username, None);
    StoredNamesAreLast(ttl, events, st.issued);
    RegisterAnswers(r, ttl, st, now, op);
  }

  lemma RegisterAnswers(r: P.Registry, ttl: int, st: State, now: int, op: Op)
    requires Consistent(st) && op.Register?
    ensures var answer, taken := Exec(r, ttl, st, now, op).answer, Taken(st, op.username, None);
            var sound := ValidUsername(op.username) && P.HashWith(r, op.password, op.salt).Encoded?;
            && (answer == Registered(st.issued) <==> sound && op.insert == Works && !taken)
            && (answer == UsernameTaken <==> sound && op.insert != Fails && taken)
            && (answer == InvalidUsername <==> !ValidUsername(op.username))
            && (answer.PasswordRefused? <==> ValidUsername(op.username) && !sound)
            && NamesIn(st, st.issued) == None
  {
  }

  /** A profile change succeeds exactly when the account exists, the new username is well formed
      and no other account's, and the calls work. */
  lemma RenamesExactlyWhen(r: P.Registry, ttl: int, events: seq<Event>, now: int, op: Op)
    requires op.UpdateProfile?
    ensures var Trace(st, log) := Run(ttl, events);
            var Result(after, answer) := Exec(r, ttl, st, now, op);
            var reached := ValidUsername(op.username) && op.read;
            var known := reached && LastNames(log, op.user).Some?;
            && (answer == Done <==> known && op.update == Works && !InUse(log, op.username, Some(op.user)))
            && (answer == UsernameTaken <==> known && op.update != Fails && InUse(log, op.username, Some(op.user)))
            && (answer == UserNotFound <==> reached && LastNames(log, op.user).None?)
            && (answer == InvalidUsername <==> !ValidUsername(op.username))
            && (answer == Done ==> NamesIn(after, op.user) == Some(Names(op.username, op.name)))
  {
    var Trace(st, log) := Run(ttl, events);
    TakenByHistory(ttl, events, op.username, Some(op.user));
    StoredNamesAreLast(ttl, events, op.user);
    RenameAnswers(r, ttl, st, now, op);
  }

  lemma RenameAnswers(r: P.Registry, ttl: int, st: State, now: int, op: Op)
    requires Consistent(st) && op.UpdateProfile?
    ensures var Result(after, answer) := Exec(r, ttl, st, now, op);
            var known := ValidUsername(op.username) && op.read && NamesIn(st, op.user).Some?;
            var taken := Taken(st, op.username, Some(op.user));
            && (answer == Done <==> known && op.update == Works && !taken)
            && (answer == UsernameTaken <==> known && op.update != Fails && taken)
            && (answer == UserNotFound <==> ValidUsername(op.username) && op.read && NamesIn(st, op.user).None?)
            && (answer == InvalidUsername <==> !ValidUsername(op.username))
            && (answer == Done ==> NamesIn(after, op.user) == Some(Names(op.username, op.name)))
  {
  }

  // ---------------------------------------------------------------- whose session

  /** What a resolved token answers: a session in force by history, not yet over, and the account
      it was issued to under that account's last names; an hour or more after the session was last
      seen the resolve notes the time. Anything else is "no such session". */
  lemma ResolvesToItsOwner(r: P.Registry, ttl: int, events: seq<Event>, t: Id, now: int, delete: Fate, touch: Fate)
    requires Ordered(events) && (events != [] ==> events[|events| - 1].now <= now)
    ensures var Trace(st, log) := Run(ttl, events);
            var Result(after, answer) := Exec(r, ttl, st, now, ResolveSession(t, true, delete, true, touch));
            match answer
            case Resolved(session, user) =>
              && InForce(log, t, session.user, session.created)
              && session.expires == session.created + ttl && now < session.expires
              && t in st.sessions && session == st.sessions[t]
              && session.user in st.users && user == st.users[session.user]
              && LastNames(log, session.user) == Some(Names(user.username, user.name))
              && t in after.sessions
              && after.sessions[t].lastSeen
                 == (if now - session.lastSeen >= 3_600_000 && touch.Lands() then now else session.lastSeen)
            case SessionNotFound =>
              forall user, created :: InForce(log, t, user, created) ==> created + ttl <= now
            case _ => false
  {
    var Trace(st, log) := Run(ttl, events);
    ResolvesExactlyWhen(r, ttl, events, t, now, delete, touch);
    if t in st.sessions {
      var row := st.sessions[t];
      TableMatchesHistory(ttl, events, t, row.user, row.created);
      StoredNamesAreLast(ttl, events, row.user);
    }
  }

  /** A read that fails is a failure, never "no such session" or "wrong password", and changes
      nothing; only a session already found expired is answered without the account. */
  lemma FailedReadsAreNoAnswer(r: P.Registry, ttl: int, st: State, now: int, op: Op)
    requires Consistent(st)
    requires || (op.ResolveSession? && !op.readSession)
             || (op.ResolveSession? && !op.readUser
                 && op.token in st.sessions && now < st.sessions[op.token].expires)
             || ((op.Authenticate? || op.ChangePassword?) && !op.read)
             || (op.UpdateProfile? && !op.read && ValidUsername(op.username))
    ensures Exec(r, ttl, st, now, op) == Result(st, Failed(Reading))
  {
  }

  lemma NumbersAreFresh(ttl: int, events: seq<Event>, t: Id, user: Id, created: int)
    requires t >= Run(ttl, events).state.issued
    ensures !InForce(Run(ttl, events).log, t, user, created)
  {
    var gives := (e: Entry) => Gives(e, t, user) && e.now == created;
    NeverGiven(ttl, events, t, user);
    forall i | 0 <= i < |Run(ttl, events).log| ensures !gives(Run(ttl, events).log[i]) {
      assert !Gives(Run(ttl, events).log[i], t, user);
    }
  }

  /** Every number in the log was drawn before. */
  lemma {:induction false} NeverGiven(ttl: int, events: seq<Event>, t: Id, user: Id)
    requires t >= Run(ttl, events).state.issued
    ensures forall i :: 0 <= i < |events| ==> !Gives(Run(ttl, events).log[i], t, user)
  {
    if events != [] {
      var n := |events| - 1;
      var earlier, e := events[..n], events[n];
      var before := Run(ttl, earlier);
      FrontAndLast(events);
      RunLast(ttl, earlier, e);
      IssuedGrows(e.registry, ttl, before.state, e.now, e.op);
      NeverGiven(ttl, earlier, t, user);
      GivenIsDrawn(ttl, before.state, e, t, user);
      forall i | 0 <= i < |events| ensures !Gives(Run(ttl, events).log[i], t, user) {
        if i < n {
          EarlierEntry(before.log, EntryOf(ttl, before.state, e), i);
        }
      }
    }
  }

  lemma GivenIsDrawn(ttl: int, st: State, e: Event, t: Id, user: Id)
    requires Consistent(st)
    ensures Gives(EntryOf(ttl, st, e), t, user) ==> t < Exec(e.registry, ttl, st, e.now, e.op).state.issued
  {
  }

  /** Signing in issues a token exactly when the account exists and the insert works. The token
      was never in force before, and until its lifetime is over it resolves to that account. */
  lemma IssuedTokenResolves(r: P.Registry, ttl: int, events: seq<Event>, user: Id, now: int, insert: Fate,
                            later: int, delete: Fate, touch: Fate)
    requires Ordered(events) && (events != [] ==> events[|events| - 1].now <= now) && now <= later < now + ttl
    ensures var Trace(st, log) := Run(ttl, events);
            var Result(after, answer) := Exec(r, ttl, st, now, CreateSession(user, insert));
            && (answer.Issued? <==> LastNames(log, user).Some? && insert == Works)
            && (answer.Issued? ==>
                  && (forall owner, created :: !InForce(log, answer.token, owner, created))
                  && Consistent(after) && user in st.users
                  && Exec(r, ttl, after, later, ResolveSession(answer.token, true, delete, true, touch)).answer
                     == Resolved(Session(user, now, now + ttl, now), st.users[user]))
  {
    var Trace(st, log) := Run(ttl, events);
    StoredNamesAreLast(ttl, events, user);
    ExecConsistent(r, ttl, st, now, CreateSession(user, insert));
    IssuedAtOnce(r, ttl, st, user, now, insert, later, delete, touch);
    forall owner, created ensures !InForce(Run(ttl, events).log, st.issued, owner, created) {
      NumbersAreFresh(ttl, events, st.issued, owner, created);
    }
  }

  lemma IssuedAtOnce(r: P.Registry, ttl: int, st: State, user: Id, now: int, insert: Fate,
                     later: int, delete: Fate, touch: Fate)
    requires Consistent(st) && now <= later < now + ttl
    ensures var Result(after, answer) := Exec(r, ttl, st, now, CreateSession(user, insert));
            && (answer.Issued? <==> user in st.users && insert == Works)
            && (answer.Issued? ==>
                  && answer.token == st.issued && Consistent(after)
                  && Exec(r, ttl, after, later, ResolveSession(answer.token, true, delete, true, touch)).answer
                     == Resolved(Session(user, now, now + ttl, now), st.users[user]))
  {
    CreateConsistent(ttl, st, now, CreateSession(user, insert));
  }

  // ---------------------------------------------------------------- what success means

  /** An operation that drops something answers success exactly when its call worked (and, for an
      account, when there was one), and then what it names is gone. */
  lemma DoneMeansGone(r: P.Registry, ttl: int, events: seq<Event>, now: int, op: Op)
    requires op.RevokeSession? || op.DeleteExpiredSessions? || op.DeleteUser?
    ensures var Trace(st, log) := Run(ttl, events);
            var Result(after, answer) := Exec(r, ttl, st, now, op);
            && (answer == Done <==> op.delete == Works && (op.DeleteUser? ==> LastNames(log, op.user).Some?))
            && (op.delete == Fails ==> after == st && answer == Failed(Deleting))
            && (answer == Done ==>
                  match op
                  case RevokeSession(token, _) => after.sessions == st.sessions - {token} && after.users == st.users
                  case DeleteExpiredSessions(_) =>
                    && after.users == st.users
                    && forall t :: t in after.sessions <==> t in st.sessions && now < st.sessions[t].expires
                  case DeleteUser(user, _) =>
                    && after.users == st.users - {user}
                    && forall t :: t in after.sessions <==> t in st.sessions && st.sessions[t].user != user
                  case _ => false)
  {
    if op.DeleteUser? {
      StoredNamesAreLast(ttl, events, op.user);
    }
  }

  /** However a run goes on after a reported logout, or after a reported deletion of the account,
      the session is never resolved again. */
  lemma DroppedForGood(ttl: int, events: seq<Event>, k: nat, t: Id, now: int, delete: Fate, touch: Fate)
    requires k < |events| && Run(ttl, events).log[k].answer == Done
    requires t in Run(ttl, events[..k]).state.sessions
    requires || (events[k].op.RevokeSession? && events[k].op.token == t)
             || (events[k].op.DeleteUser? && events[k].op.user == Run(ttl, events[..k]).state.sessions[t].user)
    ensures var r := events[|events| - 1].registry;
            Exec(r, ttl, Run(ttl, events).state, now, ResolveSession(t, true, delete, true, touch)).answer
            == SessionNotFound
  {
    var before, e, after := Run(ttl, events[..k]).state, events[k], Run(ttl, events).state;
    LogOfPrefix(ttl, events, k);
    CallDrops(e.registry, ttl, before, e.now, e.op, t);
    GoneForGood(ttl, events, k + 1, t);
    AbsentIsNotFound(after, now, t, delete, touch);
    ResolvesAs(events[|events| - 1].registry, ttl, after, now, t, delete, touch);
  }

  lemma ResolvesAs(r: P.Registry, ttl: int, st: State, now: int, t: Id, delete: Fate, touch: Fate)
    requires Consistent(st)
    ensures var op := ResolveSession(t, true, delete, true, touch); Exec(r, ttl, st, now, op) == DoResolve(st, now, op)
  {
  }

  lemma CallDrops(r: P.Registry, ttl: int, st: State, now: int, op: Op, t: Id)
    requires Consistent(st) && t in st.sessions && Exec(r, ttl, st, now, op).answer == Done
    requires (op.RevokeSession? && op.token == t) || (op.DeleteUser? && op.user == st.sessions[t].user)
    ensures t !in Exec(r, ttl, st, now, op).state.sessions && t < Exec(r, ttl, st, now, op).state.issued
  {
  }
}
