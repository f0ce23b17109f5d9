/** Passwords over whole runs, through any sequence of deployments with other hash registries. */
module PasswordHistory {
  import opened Calls
  import opened Auth
  import opened AuthHistory
  import opened AccountHistory
  import P = Passwords

  /** An account's password after one more event. */
  function NextPassword(e: Entry, id: Id, last: Option<string>): Option<string> {
    match e.op
    case Register(_, _, password, _, insert) =>
      if e.number == id && insert.Lands() && (e.answer.Registered? || e.answer == Failed(Inserting))
      then Some(password) else last
    case ChangePassword(user, _, password, _, _, _, update, _) =>
      if user == id && update.Lands() && e.answer in {Done, Failed(Dropping), Failed(Updating)}
      then Some(password) else last
    case DeleteUser(user, delete) =>
      if user == id && delete.Lands() && e.answer != UserNotFound then None else last
    case _ => last
  }

  /** The password an account was last given, if the account exists. */
  function LastPassword(log: seq<Entry>, id: Id): Option<string> {
    if log == [] then None
    else NextPassword(log[|log| - 1], id, LastPassword(log[..|log| - 1], id))
  }

  // ---------------------------------------------------------------- what is stored

  /** Every deployment prefers a sound scheme, and none reuses an identifier of a scheme that a
      deployment so far has preferred for another scheme. It may have stopped listing it. */
  ghost predicate Deployments(events: seq<Event>) {
    && (forall k :: 0 <= k < |events| ==> P.Sound(events[k].registry.preferred))
    && forall j, k :: 0 <= j <= k < |events| ==> P.Honours(events[k].registry, events[j].registry.preferred)
  }

  /** The registry honours every scheme that the run has preferred. */
  ghost predicate HonoursRun(r: P.Registry, events: seq<Event>) {
    forall k :: 0 <= k < |events| ==> P.Honours(r, events[k].registry.preferred)
  }

  ghost predicate WrittenIn(events: seq<Event>, encoded: string, password: string) {
    exists k :: 0 <= k < |events| && P.WrittenBy(events[k].registry.preferred, encoded, password)
  }

  /** The account exists if it has a password, and then its hash was written for that password
      by the preferred scheme of some deployment. */
  ghost predicate Keeps(events: seq<Event>, st: State, id: Id, password: Option<string>) {
    && (id in st.users <==> password.Some?)
    && (id in st.users ==> WrittenIn(events, st.users[id].passwordHash, password.value))
  }

  lemma WrittenLater(events: seq<Event>, e: Event, encoded: string, password: string)
    requires WrittenIn(events, encoded, password) || P.WrittenBy(e.registry.preferred, encoded, password)
    ensures WrittenIn(events + [e], encoded, password)
  {
    var longer := events + [e];
    assert longer[|events|] == e;
    if k :| 0 <= k < |events| && P.WrittenBy(events[k].registry.preferred, encoded, password) {
      assert longer[k] == events[k];
    }
  }

  /** What a hash of the run answers in a deployment that honours the run. */
  lemma HashAnswers(events: seq<Event>, r: P.Registry, encoded: string, password: string, attempt: string)
    requires HonoursRun(r, events) && WrittenIn(events, encoded, password)
    ensures P.Verify(r, encoded, attempt)
         == if !P.Lists(r, encoded) then P.Unverifiable else if attempt == password then P.Match else P.Mismatch
  {
    var k :| 0 <= k < |events| && P.WrittenBy(events[k].registry.preferred, encoded, password);
    P.HonouredHash(r, events[k].registry.preferred, encoded, password, attempt);
  }

  // ---------------------------------------------------------------- one event

  /** Nothing happens to the hashes, or one account's is replaced by one for this password. */
  lemma KeepsLater(events: seq<Event>, e: Event, st: State, st': State, id: Id, last: Option<string>)
    requires Keeps(events, st, id, last)
    requires id in st'.users <==> id in st.users
    requires id in st.users ==> st'.users[id].passwordHash == st.users[id].passwordHash
    ensures Keeps(events + [e], st', id, last)
  {
    if id in st.users {
      WrittenLater(events, e, st.users[id].passwordHash, last.value);
    }
  }

  lemma NewHashKept(events: seq<Event>, e: Event, st': State, id: Id, password: string, salt: nat)
    requires P.Sound(e.registry.preferred) && P.HashWith(e.registry, password, salt).Encoded?
    requires id in st'.users && st'.users[id].passwordHash == P.HashWith(e.registry, password, salt).text
    ensures Keeps(events + [e], st', id, Some(password))
  {
    P.FreshHashWritten(e.registry, password, salt);
    WrittenLater(events, e, st'.users[id].passwordHash, password);
  }

  /** The change gets as far as storing the new hash. */
  predicate Stores(r: P.Registry, st: State, op: Op)
    requires op.ChangePassword?
  {
    op.read && op.user in st.users && P.Verify(r, st.users[op.user].passwordHash, op.current) == P.Match
    && P.HashWith(r, op.password, op.salt).Encoded?
  }

  lemma ChangeOutcome(r: P.Registry, st: State, op: Op)
    requires Consistent(st) && op.ChangePassword?
    ensures var result := DoChangePassword(r, st, op);
            && (result.answer in {Done, Failed(Dropping), Failed(Updating)} <==> Stores(r, st, op))
            && result.state.users == if !Stores(r, st, op) then st.users else
                 var row := st.users[op.user].(passwordHash := P.HashWith(r, op.password, op.salt).text);
                 UpdateUser(st, op.user, row, op.update).state.users
  {
  }

  lemma RegisterStep(events: seq<Event>, e: Event, st: State, id: Id, last: Option<string>)
    requires P.Sound(e.registry.preferred) && Consistent(st) && e.op.Register? && Keeps(events, st, id, last)
    ensures var result := DoRegister(e.registry, st, e.op);
            Keeps(events + [e], result.state, id, NextPassword(Entry(e.now, e.op, st.issued, result.answer), id, last))
  {
    var after := DoRegister(e.registry, st, e.op).state;
    if id == st.issued && id in after.users {
      NewHashKept(events, e, after, id, e.op.password, e.op.salt);
    } else {
      KeepsLater(events, e, st, after, id, last);
    }
  }

  lemma ChangeStep(events: seq<Event>, e: Event, st: State, id: Id, last: Option<string>)
    requires P.Sound(e.registry.preferred) && Consistent(st) && e.op.ChangePassword? && Keeps(events, st, id, last)
    ensures var result := DoChangePassword(e.registry, st, e.op);
            Keeps(events + [e], result.state, id, NextPassword(Entry(e.now, e.op, st.issued, result.answer), id, last))
  {
    var after := DoChangePassword(e.registry, st, e.op).state;
    ChangeOutcome(e.registry, st, e.op);
    if Stores(e.registry, st, e.op) && id == e.op.user && e.op.update.Lands() {
      NewHashKept(events, e, after, id, e.op.password, e.op.salt);
    } else {
      KeepsLater(events, e, st, after, id, last);
    }
  }

  /** A login that replaces a hash has just seen the account's last password. */
  lemma LoginStep(events: seq<Event>, e: Event, st: State, id: Id, last: Option<string>)
    requires P.Sound(e.registry.preferred) && HonoursRun(e.registry, events)
    requires Consistent(st) && e.op.Authenticate? && Keeps(events, st, id, last)
    ensures Keeps(events + [e], DoAuthenticate(e.registry, st, e.op).state, id, last)
  {
    var after := DoAuthenticate(e.registry, st, e.op).state;
    if id in st.users && after.users[id].passwordHash != st.users[id].passwordHash {
      HashAnswers(events, e.registry, st.users[id].passwordHash, last.value, e.op.password);
      NewHashKept(events, e, after, id, e.op.password, e.op.salt);
    } else {
      KeepsLater(events, e, st, after, id, last);
    }
  }

  lemma DeleteStep(events: seq<Event>, e: Event, ttl: int, st: State, id: Id, last: Option<string>)
    requires Consistent(st) && e.op.DeleteUser? && Keeps(events, st, id, last)
    ensures Keeps(events + [e], Exec(e.registry, ttl, st, e.now, e.op).state, id,
                  NextPassword(EntryOf(ttl, st, e), id, last))
  {
    var after := Exec(e.registry, ttl, st, e.now, e.op).state;
    if id in after.users {
      KeepsLater(events, e, st, after, id, last);
    }
  }

  lemma PasswordStep(events: seq<Event>, e: Event, ttl: int, st: State, id: Id, last: Option<string>)
    requires P.Sound(e.registry.preferred) && HonoursRun(e.registry, events)
    requires Consistent(st) && Keeps(events, st, id, last)
    ensures Keeps(events + [e], Exec(e.registry, ttl, st, e.now, e.op).state, id,
                  NextPassword(EntryOf(ttl, st, e), id, last))
  {
    match e.op
    case Register(_, _, _, _, _) => RegisterStep(events, e, st, id, last);
    case ChangePassword(_, _, _, _, _, _, _, _) => ChangeStep(events, e, st, id, last);
    case Authenticate(_, _, _, _, _) => LoginStep(events, e, st, id, last);
    case DeleteUser(_, _) => DeleteStep(events, e, ttl, st, id, last);
    case UpdateProfile(_, _, _, _, _) => KeepsLater(events, e, st, DoUpdateProfile(st, e.op).state, id, last);
    case _ => KeepsLater(events, e, st, Exec(e.registry, ttl, st, e.now, e.op).state, id, last);
  }

  // ---------------------------------------------------------------- whole runs

  lemma PasswordAfterLast(log: seq<Entry>, last: Entry, id: Id)
    ensures LastPassword(log + [last], id) == NextPassword(last, id, LastPassword(log, id))
  {
    assert (log + [last])[..|log|] == log;
  }

  lemma {:induction false} PasswordsAreKept(ttl: int, events: seq<Event>, id: Id)
    requires Deployments(events)
    ensures Keeps(events, Run(ttl, events).state, id, LastPassword(Run(ttl, events).log, id))
  {
    if events != [] {
      var n := |events| - 1;
      var earlier, e := events[..n], events[n];
      var before := Run(ttl, earlier);
      PasswordsAreKept(ttl, earlier, id);
      PasswordStep(earlier, e, ttl, before.state, id, LastPassword(before.log, id));
      FrontAndLast(events);
      RunLast(ttl, earlier, e);
      PasswordAfterLast(before.log, EntryOf(ttl, before.state, e), id);
    }
  }

  /** Through any run of registrations, logins, profile and password changes and deletions,
      served by one deployment after another, whether or not rehashing or storing fails: an account
      exists if it was given a password, and a deployment that lists the scheme of its hash
      accepts the last one given and no other. One that does not list it accepts none. */
  lemma AccountsAcceptLastPassword(ttl: int, events: seq<Event>, r: P.Registry, id: Id, attempt: string)
    requires Deployments(events) && HonoursRun(r, events)
    ensures var Trace(st, log) := Run(ttl, events);
            && (id in st.users <==> LastPassword(log, id).Some?)
            && (id in st.users ==>
                  var encoded := st.users[id].passwordHash;
                  P.Verify(r, encoded, attempt)
                  == if !P.Lists(r, encoded) then P.Unverifiable
                     else if LastPassword(log, id) == Some(attempt) then P.Match else P.Mismatch)
  {
    PasswordsAreKept(ttl, events, id);
    var Trace(st, log) := Run(ttl, events);
    if id in st.users {
      HashAnswers(events, r, st.users[id].passwordHash, LastPassword(log, id).value, attempt);
    }
  }

  /** By history, this account has the username. */
  predicate Named(log: seq<Entry>, id: Id, username: string) {
    LastNames(log, id).Some? && LastNames(log, id).value.username == username
  }

  /** Usernames are unique, so a login finds the account that history gives the username. */
  lemma FoundByHistory(ttl: int, events: seq<Event>, username: string, id: Id)
    ensures FindUser(Run(ttl, events).state, username) == Some(id) <==> Named(Run(ttl, events).log, id, username)
  {
    StoredNamesAreLast(ttl, events, id);
  }

  /** Signing in works exactly for the username an account was last given and its last password,
      in a deployment that lists the scheme of its hash. */
  lemma SignsInExactlyWhen(ttl: int, events: seq<Event>, r: P.Registry, now: int,
                           username: string, password: string, salt: nat, update: Fate, id: Id)
    requires Deployments(events) && HonoursRun(r, events)
    ensures var Trace(st, log) := Run(ttl, events);
            (Exec(r, ttl, st, now, Authenticate(username, password, salt, true, update)).answer == LoggedIn(id)
             <==> && Named(log, id, username) && LastPassword(log, id) == Some(password)
                  && id in st.users && P.Lists(r, st.users[id].passwordHash))
  {
    var st := Run(ttl, events).state;
    FoundByHistory(ttl, events, username, id);
    AccountsAcceptLastPassword(ttl, events, r, id, password);
    var found := FindUser(st, username);
    if found.Some? {
      AccountsAcceptLastPassword(ttl, events, r, found.value, password);
    }
  }

  /** This deployment still lists every scheme that the run has preferred. */
  ghost predicate ListsAll(r: P.Registry, events: seq<Event>) {
    forall k :: 0 <= k < |events| ==> P.Recognises(r, events[k].registry.preferred)
  }

  lemma StoredHashIsListed(ttl: int, events: seq<Event>, r: P.Registry, id: Id)
    requires Deployments(events) && ListsAll(r, events) && id in Run(ttl, events).state.users
    ensures P.Lists(r, Run(ttl, events).state.users[id].passwordHash)
  {
    PasswordsAreKept(ttl, events, id);
    var Trace(st, log) := Run(ttl, events);
    var encoded := st.users[id].passwordHash;
    var k :| 0 <= k < |events| && P.WrittenBy(events[k].registry.preferred, encoded, LastPassword(log, id).value);
    assert P.Recognises(r, events[k].registry.preferred);
  }

  /** As long as deployments keep listing every scheme that was preferred, that is the username
      and the last password alone; whatever is wrong, the answer is the same and nothing changes. */
  lemma MigrationKeepsSignIn(ttl: int, events: seq<Event>, r: P.Registry, now: int,
                             username: string, password: string, salt: nat, update: Fate, id: Id)
    requires Deployments(events) && ListsAll(r, events)
    ensures var Trace(st, log) := Run(ttl, events);
            var result := Exec(r, ttl, st, now, Authenticate(username, password, salt, true, update));
            && (result.answer == LoggedIn(id) <==> Named(log, id, username) && LastPassword(log, id) == Some(password))
            && (!result.answer.LoggedIn? ==> result == Result(st, InvalidCredentials))
  {
    SignsInExactlyWhen(ttl, events, r, now, username, password, salt, update, id);
    FoundByHistory(ttl, events, username, id);
    var found := FindUser(Run(ttl, events).state, username);
    if found.Some? {
      StoredHashIsListed(ttl, events, r, found.value);
      AccountsAcceptLastPassword(ttl, events, r, found.value, password);
    }
  }

  /** Success exactly with the last password, a new one that can be hashed and calls that work;
      refused as a bad login is exactly with another password. */
  ghost predicate ToldByLast(r: P.Registry, st: State, op: Op, result: Result, last: Option<string>)
    requires op.ChangePassword?
  {
    var owner := op.read && last == Some(op.current);
    var hashed := P.HashWith(r, op.password, op.salt);
    && (result.answer == Done <==> owner && hashed.Encoded? && op.update == Works && op.drop == Works)
    && (result.answer == InvalidCredentials <==> op.read && last.Some? && last != Some(op.current))
    && (result.answer == UserNotFound <==> op.read && last.None?)
    && (result.answer.PasswordRefused? <==> owner && hashed.NotHashed?)
    && (!owner || hashed.NotHashed? ==> result.state == st)
  }

  /** There too a password change is answered by the account's last password. */
  lemma ChangesExactlyWhen(ttl: int, events: seq<Event>, r: P.Registry, now: int, op: Op)
    requires Deployments(events) && ListsAll(r, events) && op.ChangePassword?
    ensures var Trace(st, log) := Run(ttl, events);
            ToldByLast(r, st, op, Exec(r, ttl, st, now, op), LastPassword(log, op.user))
  {
    VerifiesByHistory(ttl, events, r, op.user, op.current);
    var Trace(st, log) := Run(ttl, events);
    ChangeByLast(r, ttl, st, now, op, LastPassword(log, op.user));
  }

  lemma ChangeByLast(r: P.Registry, ttl: int, st: State, now: int, op: Op, last: Option<string>)
    requires Consistent(st) && op.ChangePassword? && (op.user in st.users <==> last.Some?)
    requires op.user in st.users ==>
               P.Verify(r, st.users[op.user].passwordHash, op.current)
               == if last == Some(op.current) then P.Match else P.Mismatch
    ensures ToldByLast(r, st, op, Exec(r, ttl, st, now, op), last)
  {
    if op.user in st.users {
      ChangeAnswers(r, st, op);
    } else {
      AbsentIsRefused(r, st, op);
    }
  }

  /** A deployment that lists everything tells an account's last password from any other. */
  lemma VerifiesByHistory(ttl: int, events: seq<Event>, r: P.Registry, id: Id, attempt: string)
    requires Deployments(events) && ListsAll(r, events)
    ensures var Trace(st, log) := Run(ttl, events);
            && (id in st.users <==> LastPassword(log, id).Some?)
            && (id in st.users ==>
                  P.Verify(r, st.users[id].passwordHash, attempt)
                  == if LastPassword(log, id) == Some(attempt) then P.Match else P.Mismatch)
  {
    AccountsAcceptLastPassword(ttl, events, r, id, attempt);
    if id in Run(ttl, events).state.users {
      StoredHashIsListed(ttl, events, r, id);
    }
  }

  lemma AbsentIsRefused(r: P.Registry, st: State, op: Op)
    requires op.ChangePassword? && op.user !in st.users
    ensures DoChangePassword(r, st, op) == Result(st, if op.read then UserNotFound else Failed(Reading))
  {
  }

  lemma ChangeAnswers(r: P.Registry, st: State, op: Op)
    requires Consistent(st) && op.ChangePassword? && op.user in st.users
    requires P.Verify(r, st.users[op.user].passwordHash, op.current) != P.Unverifiable
    ensures var Result(after, answer) := DoChangePassword(r, st, op);
            var matching := P.Verify(r, st.users[op.user].passwordHash, op.current) == P.Match;
            && (answer == Done <==> && op.read && matching && P.HashWith(r, op.password, op.salt).Encoded?
                                    && op.update == Works && op.drop == Works)
            && (answer == InvalidCredentials <==> op.read && !matching)
            && (answer.PasswordRefused? <==> op.read && matching && P.HashWith(r, op.password, op.salt).NotHashed?)
            && answer != UserNotFound
            && (!op.read || !matching || P.HashWith(r, op.password, op.salt).NotHashed? ==> after == st)
  {
  }

  /** Dropping a scheme that wrote a stored hash locks its account out: whatever password is
      tried, the login fails and nothing is stored. */
  lemma DroppedSchemeLocksOut(ttl: int, events: seq<Event>, r: P.Registry, now: int, id: Id, password: string,
                              salt: nat, update: Fate)
    requires id in Run(ttl, events).state.users && !P.Lists(r, Run(ttl, events).state.users[id].passwordHash)
    ensures var st := Run(ttl, events).state;
            Exec(r, ttl, st, now, Authenticate(st.users[id].username, password, salt, true, update))
            == Result(st, Failed(Verifying))
  {
  }

  /** After a login the stored hash needs no rehash, unless hashing was refused or the store
      failed; then it is as it was. */
  lemma LoginUpgrades(r: P.Registry, schemes: seq<P.Algorithm>, st: State, op: Op)
    requires P.Registered(r, schemes) && P.Sound(r.preferred) && Consistent(st)
    requires op.Authenticate? && DoAuthenticate(r, st, op).answer.LoggedIn?
    ensures var id := DoAuthenticate(r, st, op).answer.id;
            var after := DoAuthenticate(r, st, op).state;
            && id in st.users && id in after.users
            && (|| !P.NeedsRehash(r, after.users[id].passwordHash)
                || (after == st && (P.HashWith(r, op.password, op.salt).NotHashed? || op.update == Fails)))
            && after.sessions == st.sessions
            && (forall other :: other != id ==> (other in after.users <==> other in st.users))
            && (forall other :: other != id && other in st.users ==> after.users[other] == st.users[other])
  {
    if P.HashWith(r, op.password, op.salt).Encoded? {
      P.FreshHash(r, schemes, op.password, op.salt);
    }
  }

  /** A registered account signs in with the registered username and password and with no
      other password; every other account is as it was. */
  lemma RegisteredSignsIn(r: P.Registry, schemes: seq<P.Algorithm>, st: State, op: Op,
                          password: string, salt: nat, update: Fate)
    requires P.Registered(r, schemes) && P.Sound(r.preferred) && Consistent(st)
    requires op.Register? && DoRegister(r, st, op).answer.Registered?
    ensures var Result(after, answer) := DoRegister(r, st, op);
            var login := Authenticate(op.username, password, salt, true, update);
            && answer.id !in st.users && answer.id in after.users
            && after.users[answer.id].username == op.username && after.users[answer.id].name == op.name
            && after.users - {answer.id} == st.users && after.sessions == st.sessions
            && Consistent(after)
            && (DoAuthenticate(r, after, login).answer == LoggedIn(answer.id) <==> password == op.password)
  {
    P.FreshHash(r, schemes, op.password, op.salt);
    RegisterConsistent(r, st, op);
    var after := DoRegister(r, st, op).state;
    assert FindUser(after, op.username) == Some(st.issued);
  }

  // ---------------------------------------------------------------- a migration

  /** A scheme whose hash is the password behind its identifier. */
  function Toy(name: string): P.Algorithm {
    P.Algorithm(name, [name],
                (password: string, salt: nat) => P.Encoded("$" + name + "$" + password),
                (encoded: string, password: string) =>
                  if encoded == "$" + name + "$" + password then P.Match else P.Mismatch)
  }

  lemma {:induction false} UpToDollarStops(name: string, rest: string)
    requires '$' !in name
    ensures P.UpToDollar(name + "$" + rest) == Some(name)
  {
    var s := name + "$" + rest;
    if name != "" {
      assert name[0] in name && s[1..] == name[1..] + "$" + rest;
      UpToDollarStops(name[1..], rest);
      assert [name[0]] + name[1..] == name;
    }
  }

  lemma ToyIdentifies(name: string, password: string)
    requires '$' !in name && name != ""
    ensures P.Identify("$" + name + "$" + password) == Some(name)
  {
    var rest := name + "$" + password;
    UpToDollarStops(name, password);
    assert "$" + name + "$" + password == "$" + rest;
    assert ("$" + rest)[1..] == rest;
  }

  lemma ToyIsSound(name: string)
    requires '$' !in name && name != ""
    ensures P.Sound(Toy(name))
  {
    var a := Toy(name);
    forall password, salt ensures P.WrittenBy(a, a.hash(password, salt).text, password) {
      ToyIdentifies(name, password);
      forall other ensures a.verify(a.hash(password, salt).text, other) == P.Match <==> other == password {
        var head := "$" + name + "$";
        assert (head + other)[|head|..] == other && (head + password)[|head|..] == password;
      }
    }
  }

  function HashedBy(name: string, password: string): string { "$" + name + "$" + password }

  /** The deployment before the change of scheme, the one that knows both, and one that has
      dropped the old scheme. */
  function Before(old': string): P.Registry { P.Registry(Toy(old'), map[old' := Toy(old')]) }

  function During(old': string, new': string): P.Registry {
    P.Registry(Toy(new'), map[new' := Toy(new'), old' := Toy(old')])
  }

  function Dropped(new': string): P.Registry { P.Registry(Toy(new'), map[new' := Toy(new')]) }

  /** A registration in the first deployment and a login in the second. */
  function MigrationOf(old': string, new': string, username: string, password: string): seq<Event> {
    [Event(Before(old'), 0, Register(username, "", password, 0, Works)),
     Event(During(old', new'), 1, Authenticate(username, password, 0, true, Works))]
  }

  lemma MigrationIsDeployments(old': string, new': string, username: string, password: string)
    requires '$' !in old' && '$' !in new' && old' != "" && new' != "" && old' != new'
    ensures Deployments(MigrationOf(old', new', username, password))
    ensures HonoursRun(Dropped(new'), MigrationOf(old', new', username, password))
  {
    ToyIsSound(old');
    ToyIsSound(new');
  }

  /** Such a run does replace the hash: it needs a rehash before the login and none after, and
      dropping the old scheme locks the account out before the login and not after. */
  lemma MigrationHappens(ttl: int, old': string, new': string, username: string, password: string)
    requires '$' !in old' && '$' !in new' && old' != "" && new' != "" && old' != new'
    requires ValidUsername(username) && |password| >= P.MIN_PASSWORD_LENGTH
    ensures var events := MigrationOf(old', new', username, password);
            var before, after := Run(ttl, events[..1]).state, Run(ttl, events).state;
            && Deployments(events) && HonoursRun(Dropped(new'), events)
            && before.users.Keys == after.users.Keys == {0}
            && before.users[0].passwordHash == HashedBy(old', password)
            && after.users[0].passwordHash == HashedBy(new', password)
            && P.NeedsRehash(During(old', new'), before.users[0].passwordHash)
            && !P.NeedsRehash(During(old', new'), after.users[0].passwordHash)
            && !P.Lists(Dropped(new'), before.users[0].passwordHash)
            && P.Lists(Dropped(new'), after.users[0].passwordHash)
  {
    var events := MigrationOf(old', new', username, password);
    MigrationIsDeployments(old', new', username, password);
    ToyIdentifies(old', password);
    ToyIdentifies(new', password);
    RunRegistration(ttl, events, old', username, password);
    var before := Run(ttl, events[..1]).state;
    assert FindUser(before, username) == Some(0);
    assert events[..2] == events;
  }

  lemma RunRegistration(ttl: int, events: seq<Event>, old': string, username: string, password: string)
    requires events != [] && events[0] == Event(Before(old'), 0, Register(username, "", password, 0, Works))
    requires ValidUsername(username) && |password| >= P.MIN_PASSWORD_LENGTH
    ensures Run(ttl, events[..1]).state == State(map[0 := User(username, "", HashedBy(old', password))], map[], 1)
  {
    assert events[..1][..0] == [];
    assert Run(ttl, []) == Trace(EMPTY, []);
  }
}
