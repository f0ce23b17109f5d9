/** The identity service: accounts, passwords and sessions over its two tables. */
module Auth {
  import opened Calls
  import P = Passwords

  const HOUR := 3_600_000
  const TOUCH_INTERVAL := HOUR
  const MIN_USERNAME_LENGTH := 3
  const MAX_USERNAME_LENGTH := 32

  /** Ids and tokens are drawn from one supply and never repeat. */
  type Id = nat

  datatype User = User(username: string, name: string, passwordHash: string)

  /** Instants are whole milliseconds. A row is stored under the digest of its token. */
  datatype Session = Session(user: Id, created: int, expires: int, lastSeen: int) {
    predicate Expired(now: int) { !(now < expires) }
  }

  /** A session and its token share their number; `issued` is the next number to be drawn. */
  datatype State = State(users: map<Id, User>, sessions: map<Id, Session>, issued: nat)

  const EMPTY := State(map[], map[], 0)

  datatype Op =
    | Register(username: string, name: string, password: string, salt: nat, insert: Fate)
    | Authenticate(username: string, password: string, salt: nat, read: bool, update: Fate)
    | CreateSession(user: Id, insert: Fate)
    | ResolveSession(token: Id, readSession: bool, delete: Fate, readUser: bool, touch: Fate)
    | RevokeSession(token: Id, delete: Fate)
    | DeleteExpiredSessions(delete: Fate)
    | DeleteUser(user: Id, delete: Fate)
    | UpdateProfile(user: Id, username: string, name: string, read: bool, update: Fate)
    | ChangePassword(user: Id, current: string, password: string, keep: Option<Id>, salt: nat,
                     read: bool, update: Fate, drop: Fate)

  /** Which repository call an unexpected failure came from. */
  datatype Stage = Reading | Inserting | Updating | Deleting | Dropping | Verifying | NoSuchUser

  datatype Answer =
    | Done
    | Registered(id: Id)
    | LoggedIn(id: Id)
    | Issued(token: Id)
    | Resolved(session: Session, user: User)
    | SessionNotFound
    | UserNotFound
    | UsernameTaken
    | InvalidUsername
    | InvalidCredentials
    | PasswordRefused(reason: P.HashError)
    | Failed(stage: Stage)

  datatype Result = Result(state: State, answer: Answer)

  /** A normalized username that may be stored. */
  predicate ValidUsername(username: string) {
    && MIN_USERNAME_LENGTH <= |username| <= MAX_USERNAME_LENGTH
    && forall i :: 0 <= i < |username| ==>
         || 'a' <= username[i] <= 'z' || '0' <= username[i] <= '9'
         || (i > 0 && username[i] in {'-', '_'})
  }

  predicate Taken(st: State, username: string, except: Option<Id>) {
    exists id :: id in st.users && st.users[id].username == username && except != Some(id)
  }

  /** The account with this username; usernames are unique, so there is at most one. */
  function FindUser(st: State, username: string): (r: Option<Id>)
    requires UniqueNames(st)
    ensures r.Some? <==> Taken(st, username, None)
    ensures r.Some? ==> r.value in st.users && st.users[r.value].username == username
  {
    if id: nat :| id in st.users && st.users[id].username == username then Some(id) else None
  }

  ghost predicate UniqueNames(st: State) {
    forall a, b :: a in st.users && b in st.users && st.users[a].username == st.users[b].username ==> a == b
  }

  // ---------------------------------------------------------------- single statements

  ghost predicate Consistent(st: State) {
    && UniqueNames(st)
    && (forall id :: id in st.users ==> id < st.issued)
    && (forall t :: t in st.sessions ==> t < st.issued && st.sessions[t].user in st.users)
  }

  /** The next number is used up whether or not the row that carries it is stored. */
  function Draw(st: State): State { st.(issued := st.issued + 1) }

  function StoreUser(st: State, id: Id, user: User): State { st.(users := st.users[id := user]) }

  function DropToken(st: State, token: Id): State { st.(sessions := st.sessions - {token}) }

  /** Every session of a user except the kept one. */
  function DropOthers(st: State, user: Id, keep: Option<Id>): State {
    st.(sessions := map t | t in st.sessions && !(st.sessions[t].user == user && keep != Some(t)) :: st.sessions[t])
  }

  function DropExpired(st: State, now: int): State {
    st.(sessions := map t | t in st.sessions && now < st.sessions[t].expires :: st.sessions[t])
  }

  /** The sessions go with the account. */
  function DropUser(st: State, user: Id): State {
    DropOthers(st, user, None).(users := st.users - {user})
  }

  function InsertUser(st: State, id: Id, user: User, fate: Fate): Result {
    if fate == Fails then Result(st, Failed(Inserting))
    else if Taken(st, user.username, None) then Result(st, UsernameTaken)
    else Result(StoreUser(st, id, user), if fate == Works then Registered(id) else Failed(Inserting))
  }

  function UpdateUser(st: State, id: Id, user: User, fate: Fate): Result {
    if fate == Fails then Result(st, Failed(Updating))
    else if id !in st.users then Result(st, UserNotFound)
    else if Taken(st, user.username, Some(id)) then Result(st, UsernameTaken)
    else Result(StoreUser(st, id, user), if fate == Works then Done else Failed(Updating))
  }

  function Reported(fate: Fate): Answer { if fate == Works then Done else Failed(Deleting) }

  // ---------------------------------------------------------------- operations

  function DoRegister(r: P.Registry, st: State, op: Op): Result
    requires op.Register?
  {
    if !ValidUsername(op.username) then Result(st, InvalidUsername)
    else match P.HashWith(r, op.password, op.salt)
      case NotHashed(reason) => Result(st, PasswordRefused(reason))
      case Encoded(text) => InsertUser(Draw(st), st.issued, User(op.username, op.name, text), op.insert)
  }

  /** Replaces a hash of a superseded scheme; failing to is not a failure of the login. */
  function Rehash(r: P.Registry, st: State, id: Id, password: string, salt: nat, update: Fate): State
    requires id in st.users
  {
    if !P.NeedsRehash(r, st.users[id].passwordHash) then st
    else match P.HashWith(r, password, salt)
      case NotHashed(_) => st
      case Encoded(text) => UpdateUser(st, id, st.users[id].(passwordHash := text), update).state
  }

  function DoAuthenticate(r: P.Registry, st: State, op: Op): Result
    requires op.Authenticate? && UniqueNames(st)
  {
    if !op.read then Result(st, Failed(Reading))
    else match FindUser(st, op.username)
      case None => Result(st, InvalidCredentials)
      case Some(id) =>
        match P.Verify(r, st.users[id].passwordHash, op.password)
        case Mismatch => Result(st, InvalidCredentials)
        case Unverifiable => Result(st, Failed(Verifying))
        case Match => Result(Rehash(r, st, id, op.password, op.salt, op.update), LoggedIn(id))
  }

  function DoCreateSession(ttl: int, st: State, now: int, op: Op): Result
    requires op.CreateSession?
  {
    if op.user !in st.users then Result(Draw(st), Failed(NoSuchUser))
    else
      var row := Session(op.user, now, now + ttl, now);
      var after := if op.insert.Lands() then Draw(st).(sessions := st.sessions[st.issued := row]) else Draw(st);
      Result(after, if op.insert == Works then Issued(st.issued) else Failed(Inserting))
  }

  /** This resolve writes the time it was last seen. */
  predicate Touches(st: State, now: int, op: Op) {
    op.ResolveSession? && op.readSession && op.readUser && op.token in st.sessions
    && now < st.sessions[op.token].expires && st.sessions[op.token].user in st.users
    && now - st.sessions[op.token].lastSeen >= TOUCH_INTERVAL && op.touch.Lands()
  }

  function DoResolve(st: State, now: int, op: Op): Result
    requires op.ResolveSession?
  {
    if !op.readSession then Result(st, Failed(Reading))
    else if op.token !in st.sessions then Result(st, SessionNotFound)
    else
      var session := st.sessions[op.token];
      if session.Expired(now) then
        Result(if op.delete.Lands() then DropToken(st, op.token) else st, SessionNotFound)
      else if !op.readUser then Result(st, Failed(Reading))
      else if session.user !in st.users then Result(st, UserNotFound)
      else
        var after := if Touches(st, now, op)
                     then st.(sessions := st.sessions[op.token := session.(lastSeen := now)]) else st;
        Result(after, Resolved(session, st.users[session.user]))
  }

  function DoUpdateProfile(st: State, op: Op): Result
    requires op.UpdateProfile?
  {
    if !ValidUsername(op.username) then Result(st, InvalidUsername)
    else if !op.read then Result(st, Failed(Reading))
    else if op.user !in st.users then Result(st, UserNotFound)
    else UpdateUser(st, op.user, st.users[op.user].(username := op.username, name := op.name), op.update)
  }

  function DoChangePassword(r: P.Registry, st: State, op: Op): Result
    requires op.ChangePassword?
  {
    if !op.read then Result(st, Failed(Reading))
    else if op.user !in st.users then Result(st, UserNotFound)
    else match P.Verify(r, st.users[op.user].passwordHash, op.current)
      case Mismatch => Result(st, InvalidCredentials)
      case Unverifiable => Result(st, Failed(Verifying))
      case Match =>
        match P.HashWith(r, op.password, op.salt)
        case NotHashed(reason) => Result(st, PasswordRefused(reason))
        case Encoded(text) =>
          var updated := UpdateUser(st, op.user, st.users[op.user].(passwordHash := text), op.update);
          if updated.answer != Done then updated
          else Result(if op.drop.Lands() then DropOthers(updated.state, op.user, op.keep) else updated.state,
                      if op.drop == Works then Done else Failed(Dropping))
  }

  function Exec(r: P.Registry, ttl: int, st: State, now: int, op: Op): Result
    requires UniqueNames(st)
  {
    match op
    case Register(_, _, _, _, _) => DoRegister(r, st, op)
    case Authenticate(_, _, _, _, _) => DoAuthenticate(r, st, op)
    case CreateSession(_, _) => DoCreateSession(ttl, st, now, op)
    case ResolveSession(_, _, _, _, _) => DoResolve(st, now, op)
    case RevokeSession(token, fate) =>
      Result(if fate.Lands() then DropToken(st, token) else st, Reported(fate))
    case DeleteExpiredSessions(fate) =>
      Result(if fate.Lands() then DropExpired(st, now) else st, Reported(fate))
    case DeleteUser(user, fate) =>
      if fate == Fails then Result(st, Failed(Deleting))
      else if user !in st.users then Result(st, UserNotFound)
      else Result(DropUser(st, user), Reported(fate))
    case UpdateProfile(_, _, _, _, _) => DoUpdateProfile(st, op)
    case ChangePassword(_, _, _, _, _, _, _, _) => DoChangePassword(r, st, op)
  }

  lemma UpdateConsistent(st: State, id: Id, user: User, fate: Fate)
    requires Consistent(st)
    ensures Consistent(UpdateUser(st, id, user, fate).state)
  {
  }

  lemma RegisterConsistent(r: P.Registry, st: State, op: Op)
    requires Consistent(st) && op.Register?
    ensures Consistent(DoRegister(r, st, op).state)
  {
  }

  lemma AuthenticateConsistent(r: P.Registry, st: State, op: Op)
    requires Consistent(st) && op.Authenticate?
    ensures Consistent(DoAuthenticate(r, st, op).state)
  {
  }

  lemma ProfileConsistent(st: State, op: Op)
    requires Consistent(st) && op.UpdateProfile?
    ensures Consistent(DoUpdateProfile(st, op).state)
  {
  }

  lemma DropOthersConsistent(st: State, user: Id, keep: Option<Id>)
    requires Consistent(st)
    ensures Consistent(DropOthers(st, user, keep)) && Consistent(DropUser(st, user))
  {
  }

  lemma PasswordConsistent(r: P.Registry, st: State, op: Op)
    requires Consistent(st) && op.ChangePassword?
    ensures Consistent(DoChangePassword(r, st, op).state)
  {
    var hashed := P.HashWith(r, op.password, op.salt);
    if op.user in st.users && hashed.Encoded? {
      var updated := UpdateUser(st, op.user, st.users[op.user].(passwordHash := hashed.text), op.update);
      UpdateConsistent(st, op.user, st.users[op.user].(passwordHash := hashed.text), op.update);
      DropOthersConsistent(updated.state, op.user, op.keep);
    }
  }

  lemma CreateConsistent(ttl: int, st: State, now: int, op: Op)
    requires Consistent(st) && op.CreateSession?
    ensures Consistent(DoCreateSession(ttl, st, now, op).state)
  {
  }

  lemma ResolveConsistent(st: State, now: int, op: Op)
    requires Consistent(st) && op.ResolveSession?
    ensures Consistent(DoResolve(st, now, op).state)
  {
  }

  /** Usernames stay unique, every session belongs to a stored account, no number is reused. */
  lemma ExecConsistent(r: P.Registry, ttl: int, st: State, now: int, op: Op)
    requires Consistent(st)
    ensures Consistent(Exec(r, ttl, st, now, op).state)
  {
    match op
    case Register(_, _, _, _, _) => RegisterConsistent(r, st, op);
    case Authenticate(_, _, _, _, _) => AuthenticateConsistent(r, st, op);
    case UpdateProfile(_, _, _, _, _) => ProfileConsistent(st, op);
    case ChangePassword(_, _, _, _, _, _, _, _) => PasswordConsistent(r, st, op);
    case CreateSession(_, _) => CreateConsistent(ttl, st, now, op);
    case ResolveSession(_, _, _, _, _) => ResolveConsistent(st, now, op);
    case DeleteUser(user, _) => DropOthersConsistent(st, user, None);
    case _ =>
  }

  // ---------------------------------------------------------------- the service

  class Service {
    const registry: P.Registry
    const ttl: int
    var users: map<Id, User>
    var sessions: map<Id, Session>
    var issued: nat

    constructor (registry: P.Registry, ttl: int)
      ensures this.registry == registry && this.ttl == ttl
      ensures Current() == EMPTY && Consistent(Current())
    {
      this.registry, this.ttl := registry, ttl;
      users, sessions, issued := map[], map[], 0;
    }

    function Current(): State reads this { State(users, sessions, issued) }

    method NextNumber() returns (n: Id)
      modifies this`issued
      ensures n == old(issued) && issued == n + 1
    {
      n := issued;
      issued := issued + 1;
    }

    method WriteUser(id: Id, user: User, fate: Fate) returns (answer: Answer)
      modifies this`users
      ensures Result(Current(), answer) == UpdateUser(old(Current()), id, user, fate)
    {
      if fate == Fails {
        return Failed(Updating);
      }
      if id !in users {
        return UserNotFound;
      }
      if Taken(Current(), user.username, Some(id)) {
        return UsernameTaken;
      }
      users := users[id := user];
      return if fate == Works then Done else Failed(Updating);
    }

    method SignUp(username: string, name: string, password: string, salt: nat, insert: Fate) returns (answer: Answer)
      modifies this
      ensures Result(Current(), answer)
           == DoRegister(registry, old(Current()), Register(username, name, password, salt, insert))
    {
      if !ValidUsername(username) {
        return InvalidUsername;
      }
      var hashed := P.HashWith(registry, password, salt);
      if hashed.NotHashed? {
        return PasswordRefused(hashed.error);
      }
      var id := NextNumber();
      if insert == Fails {
        return Failed(Inserting);
      }
      if Taken(Current(), username, None) {
        return UsernameTaken;
      }
      users := users[id := User(username, name, hashed.text)];
      return if insert == Works then Registered(id) else Failed(Inserting);
    }

    method SignIn(username: string, password: string, salt: nat, read: bool, update: Fate) returns (answer: Answer)
      requires UniqueNames(Current())
      modifies this
      ensures Result(Current(), answer)
           == DoAuthenticate(registry, old(Current()), Authenticate(username, password, salt, read, update))
    {
      if !read {
        return Failed(Reading);
      }
      var found := FindUser(Current(), username);
      if found.None? {
        return InvalidCredentials;
      }
      var user := users[found.value];
      var verdict := P.Verify(registry, user.passwordHash, password);
      if verdict == P.Mismatch {
        return InvalidCredentials;
      }
      if verdict == P.Unverifiable {
        return Failed(Verifying);
      }
      if P.NeedsRehash(registry, user.passwordHash) {
        var hashed := P.HashWith(registry, password, salt);
        if hashed.Encoded? {
          user := user.(passwordHash := hashed.text);
          var stored := WriteUser(found.value, user, update);
        }
      }
      return LoggedIn(found.value);
    }

    method StartSession(user: Id, now: int, insert: Fate) returns (answer: Answer)
      modifies this
      ensures Result(Current(), answer) == DoCreateSession(ttl, old(Current()), now, CreateSession(user, insert))
    {
      var token := NextNumber();
      if user !in users {
        return Failed(NoSuchUser);
      }
      if insert.Lands() {
        sessions := sessions[token := Session(user, now, now + ttl, now)];
      }
      return if insert == Works then Issued(token) else Failed(Inserting);
    }

    /** An expired session is deleted on sight and reported as absent. */
    method Resolve(token: Id, now: int, readSession: bool, delete: Fate, readUser: bool, touch: Fate)
      returns (answer: Answer)
      modifies this
      ensures Result(Current(), answer)
           == DoResolve(old(Current()), now, ResolveSession(token, readSession, delete, readUser, touch))
    {
      if !readSession {
        return Failed(Reading);
      }
      if token !in sessions {
        return SessionNotFound;
      }
      var session := sessions[token];
      if session.Expired(now) {
        if delete.Lands() {
          sessions := sessions - {token};
        }
        return SessionNotFound;
      }
      if !readUser {
        return Failed(Reading);
      }
      if session.user !in users {
        return UserNotFound;
      }
      if now - session.lastSeen >= TOUCH_INTERVAL && touch.Lands() {
        sessions := sessions[token := session.(lastSeen := now)];
      }
      return Resolved(session, users[session.user]);
    }

    method Sweep(now: int, delete: Fate) returns (answer: Answer, deleted: nat)
      modifies this`sessions
      ensures Current() == if delete.Lands() then DropExpired(old(Current()), now) else old(Current())
      ensures answer == Reported(delete)
      ensures delete.Lands() ==> deleted == |old(sessions)| - |sessions|
    {
      deleted := 0;
      if delete.Lands() {
        var kept := map t | t in sessions && now < sessions[t].expires :: sessions[t];
        FewerKeys(kept, sessions);
        deleted := |sessions| - |kept|;
        sessions := kept;
      }
      answer := Reported(delete);
    }

    /** Revoking an absent session is no failure. */
    method Revoke(token: Id, delete: Fate) returns (answer: Answer)
      modifies this`sessions
      ensures Current() == if delete.Lands() then DropToken(old(Current()), token) else old(Current())
      ensures answer == Reported(delete)
    {
      if delete.Lands() {
        sessions := sessions - {token};
      }
      answer := Reported(delete);
    }

    /** The account's sessions go with it. */
    method Remove(user: Id, delete: Fate) returns (answer: Answer)
      requires UniqueNames(Current())
      modifies this`users, this`sessions
      ensures forall now: int ::
                Result(Current(), answer) == Exec(registry, ttl, old(Current()), now, DeleteUser(user, delete))
    {
      if delete == Fails {
        return Failed(Deleting);
      }
      if user !in users {
        return UserNotFound;
      }
      users := users - {user};
      sessions := map t | t in sessions && sessions[t].user != user :: sessions[t];
      answer := Reported(delete);
    }

    method Rename(user: Id, username: string, name: string, read: bool, update: Fate) returns (answer: Answer)
      modifies this
      ensures Result(Current(), answer)
           == DoUpdateProfile(old(Current()), UpdateProfile(user, username, name, read, update))
    {
      if !ValidUsername(username) {
        return InvalidUsername;
      }
      if !read {
        return Failed(Reading);
      }
      if user !in users {
        return UserNotFound;
      }
      var row := users[user];
      row := row.(username := username, name := name);
      answer := WriteUser(user, row, update);
    }

    method SetPassword(user: Id, current: string, password: string, keep: Option<Id>, salt: nat,
                       read: bool, update: Fate, drop: Fate) returns (answer: Answer)
      modifies this
      ensures Result(Current(), answer)
           == DoChangePassword(registry, old(Current()),
                               ChangePassword(user, current, password, keep, salt, read, update, drop))
    {
      if !read {
        return Failed(Reading);
      }
      if user !in users {
        return UserNotFound;
      }
      var row := users[user];
      var verdict := P.Verify(registry, row.passwordHash, current);
      if verdict == P.Mismatch {
        return InvalidCredentials;
      }
      if verdict == P.Unverifiable {
        return Failed(Verifying);
      }
      var hashed := P.HashWith(registry, password, salt);
      if hashed.NotHashed? {
        return PasswordRefused(hashed.error);
      }
      row := row.(passwordHash := hashed.text);
      answer := WriteUser(user, row, update);
      if answer != Done {
        return;
      }
      if drop.Lands() {
        sessions := map t | t in sessions && !(sessions[t].user == user && keep != Some(t)) :: sessions[t];
      }
      answer := if drop == Works then Done else Failed(Dropping);
    }
  }

  lemma FewerKeys(small: map<Id, Session>, large: map<Id, Session>)
    requires small.Keys <= large.Keys
    ensures |small| <= |large|
  {
    assert |large.Keys - small.Keys| + |small.Keys| == |large.Keys|;
  }
}
