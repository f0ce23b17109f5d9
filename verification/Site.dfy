/** The site's handlers: ordered calls to three services that share no transaction. */
module Site {
  import opened Calls
  import opened Refs
  import Z = Authz

  const ADMIN := "admin"
  const AUTHOR := "author"
  const READER := "reader"

  const POST_CREATE := "post.create"
  const POST_DELETE := "post.delete"
  const USER_DELETE := "user.delete"
  const ROLE_ASSIGN := "role.assign"

  /** Granted over a post to whoever creates it. */
  const OWNERSHIP: seq<string> := ["post.read", "post.update", POST_DELETE, "post.publish"]

  /** `urn:content:post:*` */
  const ANY_POST := PostRef("") + Z.WILDCARD

  const EVERYTHING := Z.Pattern(Z.WILDCARD, Z.WILDCARD)

  /** The seeded roles, and the order in which they are listed. */
  const SEEDED: Z.RoleTable := map[ADMIN := {EVERYTHING}, AUTHOR := {Z.Pattern(POST_CREATE, ANY_POST)}, READER := {}]
  const AVAILABLE: seq<string> := [ADMIN, AUTHOR, READER]

  /** The accounts, every id ever drawn, each post's author, and the authorization tables. */
  datatype State = State(users: set<string>, issued: set<string>, posts: map<string, string>, authz: Z.State)

  const EMPTY := State({}, {}, map[], Z.State({}, {}))

  /** The boolean of a read says that it succeeds; a write has a fate. */
  datatype Request =
    | SetRoles(viewer: Option<string>, target: string, form: seq<string>,
               check: bool, load: bool, parse: bool, list: bool, fates: string -> Fate)
    | DeleteUser(viewer: Option<string>, target: string, check: bool, load: bool, purge: Fate, delete: Fate)
    | CreatePost(viewer: Option<string>, id: string, check: bool, parse: bool, valid: bool,
                 insert: Fate, grant: Fate, again: Fate)
    | DeletePost(viewer: Option<string>, id: string, check: bool, load: bool, purge: Fate, delete: Fate)
    | SignUp(id: string, valid: bool, insert: Fate)
    | CompleteSetup(id: string, count: bool, valid: bool, insert: Fate, recount: bool,
                    hook: Fate, again: Fate, rollback: Fate)

  datatype Answer = Done | SignInFirst | Forbidden | NotFound | NotOnYourself | Rejected | SetupClosed | Failed

  datatype Result = Result(state: State, answer: Answer)

  // ---------------------------------------------------------------- calls to the services

  function Assign(z: Z.State, user: string, role: string, fate: Fate): Z.State {
    Z.After(SEEDED, z, Z.AssignRole(UserRef(user), role, true, fate))
  }

  function Revoke(z: Z.State, user: string, role: string, fate: Fate): Z.State {
    Z.After(SEEDED, z, Z.RevokeRole(UserRef(user), role, fate))
  }

  function GrantOwnership(z: Z.State, user: string, post: string, fate: Fate): Z.State {
    Z.After(SEEDED, z, Z.GrantActions(UserRef(user), OWNERSHIP, PostRef(post), fate))
  }

  /** The roles a user holds. */
  function RolesOf(z: Z.State, user: string): set<string> {
    set a | a in z.assignments && a.subject == UserRef(user) :: a.role
  }

  predicate Holds(st: State, user: string, role: string) {
    Z.Assignment(UserRef(user), role) in st.authz.assignments
  }

  // ---------------------------------------------------------------- the handlers

  /** `Done` lets the handler go on. A viewer is a stored account's session. */
  function Permit(st: State, viewer: Option<string>, action: string, resource: string, check: bool): Answer {
    if viewer.None? || viewer.value !in st.users then SignInFirst
    else if !check then Failed
    else match Z.Can(SEEDED, st.authz, UserRef(viewer.value), action, resource)
      case Undecided(_) => Failed
      case Decided(allowed) => if allowed then Done else Forbidden
  }

  function AuthorizeUser(st: State, viewer: Option<string>, target: string, action: string,
                         check: bool, load: bool): Answer
  {
    if !ValidID(target) then NotFound
    else
      var permit := Permit(st, viewer, action, UserRef(target), check);
      if permit != Done then permit
      else if !load then Failed
      else if target !in st.users then NotFound
      else Done
  }

  function AuthorizePost(st: State, viewer: Option<string>, id: string, action: string,
                         check: bool, load: bool): Answer
  {
    if !ValidID(id) then NotFound
    else
      var permit := Permit(st, viewer, action, PostRef(id), check);
      if permit != Done then permit
      else if !load then Failed
      else if id !in st.posts then NotFound
      else Done
  }

  /** The submitted roles that exist. */
  function Requested(form: seq<string>): set<string> { set role | role in form && role in AVAILABLE }

  /** One call for every role that differs, in order, up to the first that reports a failure. */
  function Replace(z: Z.State, user: string, held: set<string>, requested: set<string>,
                   roles: seq<string>, fates: string -> Fate): (Z.State, Answer)
    decreases |roles|
  {
    if roles == [] then (z, Done)
    else
      var role := roles[0];
      if (role in requested) == (role in held) then Replace(z, user, held, requested, roles[1..], fates)
      else
        var changed := if role in requested then Assign(z, user, role, fates(role))
                       else Revoke(z, user, role, fates(role));
        if fates(role) != Works then (changed, Failed)
        else Replace(changed, user, held, requested, roles[1..], fates)
  }

  function DoSetRoles(st: State, req: Request): Result
    requires req.SetRoles?
  {
    var authorized := AuthorizeUser(st, req.viewer, req.target, ROLE_ASSIGN, req.check, req.load);
    if authorized != Done then Result(st, authorized)
    else if !req.parse then Result(st, Rejected)
    else if !req.list then Result(st, Failed)
    else
      var held, requested := RolesOf(st.authz, req.target), Requested(req.form);
      if req.viewer == Some(req.target) && ADMIN !in requested && ADMIN in held then Result(st, NotOnYourself)
      else
        var (z, answer) := Replace(st.authz, req.target, held, requested, AVAILABLE, req.fates);
        Result(st.(authz := z), answer)
  }

  function DoDeleteUser(st: State, req: Request): Result
    requires req.DeleteUser?
  {
    var authorized := AuthorizeUser(st, req.viewer, req.target, USER_DELETE, req.check, req.load);
    if authorized != Done then Result(st, authorized)
    else if req.viewer == Some(req.target) then Result(st, NotOnYourself)
    else
      var purged := st.(authz := Z.After(SEEDED, st.authz, Z.PurgeSubject(UserRef(req.target), req.purge)));
      if req.purge != Works then Result(purged, Failed)
      else
        var after := if req.delete.Lands() then purged.(users := purged.users - {req.target}) else purged;
        Result(after, if req.delete == Works then Done else Failed)
  }

  function DoCreatePost(st: State, req: Request): Result
    requires req.CreatePost?
  {
    var permit := Permit(st, req.viewer, POST_CREATE, ANY_POST, req.check);
    if permit != Done then Result(st, permit)
    else if !req.parse || !req.valid then Result(st, Rejected)
    else
      var author := req.viewer.value;
      var drawn := st.(issued := st.issued + {req.id});
      var stored := if req.insert.Lands() then drawn.(posts := drawn.posts[req.id := UserRef(author)]) else drawn;
      if req.insert != Works then Result(stored, Failed)
      else
        var once := GrantOwnership(stored.authz, author, req.id, req.grant);
        if req.grant == Works then Result(stored.(authz := once), Done)
        else Result(stored.(authz := GrantOwnership(once, author, req.id, req.again)),
                    if req.again == Works then Done else Failed)
  }

  function DoDeletePost(st: State, req: Request): Result
    requires req.DeletePost?
  {
    var authorized := AuthorizePost(st, req.viewer, req.id, POST_DELETE, req.check, req.load);
    if authorized != Done then Result(st, authorized)
    else
      var purged := st.(authz := Z.After(SEEDED, st.authz, Z.PurgeResource(PostRef(req.id), req.purge)));
      if req.purge != Works then Result(purged, Failed)
      else
        var after := if req.delete.Lands() then purged.(posts := purged.posts - {req.id}) else purged;
        Result(after, if req.delete == Works then Done else Failed)
  }

  function DoSignUp(st: State, id: string, valid: bool, insert: Fate): Result {
    if !valid then Result(st, Rejected)
    else
      var drawn := st.(issued := st.issued + {id});
      var after := if insert.Lands() then drawn.(users := drawn.users + {id}) else drawn;
      Result(after, if insert == Works then Done else Failed)
  }

  function DoCompleteSetup(st: State, req: Request): Result
    requires req.CompleteSetup?
  {
    if !req.count then Result(st, Failed)
    else if |st.users| != 0 then Result(st, SetupClosed)
    else
      var signedUp := DoSignUp(st, req.id, req.valid, req.insert);
      var made := signedUp.state;
      var rolledBack := if req.rollback.Lands() then made.users - {req.id} else made.users;
      if signedUp.answer != Done then signedUp
      else if !req.recount then Result(made.(users := rolledBack), Failed)
      else if |made.users| != 1 then Result(made.(users := rolledBack), SetupClosed)
      else
        var once := Assign(made.authz, req.id, ADMIN, req.hook);
        var hooked := if req.hook == Works then once else Assign(once, req.id, ADMIN, req.again);
        if req.hook == Works || req.again == Works then Result(made.(authz := hooked), Done)
        else Result(made.(users := rolledBack, authz := hooked), Failed)
  }

  function Serve(st: State, req: Request): Result {
    match req
    case SetRoles(_, _, _, _, _, _, _, _) => DoSetRoles(st, req)
    case DeleteUser(_, _, _, _, _, _) => DoDeleteUser(st, req)
    case CreatePost(_, _, _, _, _, _, _, _) => DoCreatePost(st, req)
    case DeletePost(_, _, _, _, _, _) => DoDeletePost(st, req)
    case SignUp(id, valid, insert) => DoSignUp(st, id, valid, insert)
    case CompleteSetup(_, _, _, _, _, _, _, _) => DoCompleteSetup(st, req)
  }

  /** An id that a request draws is well formed and has never been drawn before. */
  predicate DrawsFresh(st: State, req: Request) {
    req.CreatePost? || req.SignUp? || req.CompleteSetup? ==> ValidID(req.id) && req.id !in st.issued
  }

  predicate Run(st: State, requests: seq<Request>, end: State)
    decreases |requests|
  {
    if requests == [] then st == end
    else DrawsFresh(st, requests[0]) && Run(Serve(st, requests[0]).state, requests[1..], end)
  }

  // ---------------------------------------------------------------- what every request keeps

  ghost predicate KnownIds(st: State) {
    && st.users <= st.issued && st.posts.Keys <= st.issued
    && forall id :: id in st.issued ==> ValidID(id)
  }

  /** A grant is an ownership action of a stored post's author over that post. */
  predicate OwnsPost(st: State, g: Z.Grant, post: string) {
    post in st.posts && g.resource == PostRef(post) && g.subject == st.posts[post] && g.action in OWNERSHIP
  }

  ghost predicate GrantsAreOwnership(st: State) {
    forall g :: g in st.authz.grants ==> exists post :: OwnsPost(st, g, post)
  }

  ghost predicate AuthorsAreUsers(st: State) {
    forall post :: post in st.posts ==> exists id :: ValidID(id) && st.posts[post] == UserRef(id)
  }

  ghost predicate RolesExist(st: State) {
    forall a :: a in st.authz.assignments ==> a.role in AVAILABLE
  }

  ghost predicate Tidy(st: State) {
    KnownIds(st) && GrantsAreOwnership(st) && AuthorsAreUsers(st) && RolesExist(st) && Z.Concrete(st.authz)
  }

  lemma ActionsAreValid()
    ensures Z.ValidAction(POST_CREATE) && Z.ValidAction(USER_DELETE) && Z.ValidAction(ROLE_ASSIGN)
    ensures forall action :: action in OWNERSHIP ==> Z.ValidAction(action)
    ensures ROLE_ASSIGN !in OWNERSHIP && USER_DELETE !in OWNERSHIP
  {
  }

  lemma {:induction false} ReplaceIsTidy(z: Z.State, user: string, held: set<string>, requested: set<string>,
                                         roles: seq<string>, fates: string -> Fate)
    requires Z.Concrete(z) && (forall a :: a in z.assignments ==> a.role in AVAILABLE)
    ensures var z' := Replace(z, user, held, requested, roles, fates).0;
            Z.Concrete(z') && z'.grants == z.grants && forall a :: a in z'.assignments ==> a.role in AVAILABLE
    decreases |roles|
  {
    if roles != [] {
      var role := roles[0];
      var z' := if role in requested then Assign(z, user, role, fates(role)) else Revoke(z, user, role, fates(role));
      ReplaceIsTidy(z, user, held, requested, roles[1..], fates);
      ReplaceIsTidy(z', user, held, requested, roles[1..], fates);
    }
  }

  lemma SetRolesIsTidy(st: State, req: Request)
    requires Tidy(st) && req.SetRoles?
    ensures Tidy(DoSetRoles(st, req).state)
  {
    ReplaceIsTidy(st.authz, req.target, RolesOf(st.authz, req.target), Requested(req.form), AVAILABLE, req.fates);
    var st' := DoSetRoles(st, req).state;
    forall g | g in st'.authz.grants ensures exists post :: OwnsPost(st', g, post) {
      var post :| OwnsPost(st, g, post);
      assert OwnsPost(st', g, post);
    }
  }

  /** Fewer rows over the same posts. */
  lemma FewerRowsAreTidy(st: State, st': State)
    requires Tidy(st) && st'.users <= st.users && st'.issued == st.issued && st'.posts == st.posts
    requires st'.authz.grants <= st.authz.grants && st'.authz.assignments <= st.authz.assignments
    ensures Tidy(st')
  {
    forall g | g in st'.authz.grants ensures exists post :: OwnsPost(st', g, post) {
      var post :| OwnsPost(st, g, post);
      assert OwnsPost(st', g, post);
    }
  }

  // Each deletion does its two writes in order, so that it stops in one of three states.

  function WithoutGrants(st: State, id: string): State {
    st.(authz := st.authz.(grants := set g | g in st.authz.grants && g.resource != PostRef(id)))
  }

  function WithoutPost(st: State, id: string): State { st.(posts := st.posts - {id}) }

  lemma PostDeletionStages(st: State, req: Request)
    requires req.DeletePost? && ValidID(req.id)
    ensures Serve(st, req).state in {st, WithoutGrants(st, req.id), WithoutPost(WithoutGrants(st, req.id), req.id)}
  {
  }

  function WithoutRows(st: State, user: string): State {
    st.(authz := Z.State(set a | a in st.authz.assignments && a.subject != UserRef(user),
                         set g | g in st.authz.grants && g.subject != UserRef(user)))
  }

  function WithoutUser(st: State, user: string): State { st.(users := st.users - {user}) }

  lemma AccountDeletionStages(st: State, req: Request)
    requires req.DeleteUser? && ValidID(req.target)
    ensures Serve(st, req).state
         in {st, WithoutRows(st, req.target), WithoutUser(WithoutRows(st, req.target), req.target)}
  {
  }

  /** A post without grants may go. */
  lemma WithoutPostIsTidy(st: State, id: string)
    requires Tidy(st) && forall g :: g in st.authz.grants ==> g.resource != PostRef(id)
    ensures Tidy(WithoutPost(st, id))
  {
    var st' := WithoutPost(st, id);
    forall g | g in st'.authz.grants ensures exists post :: OwnsPost(st', g, post) {
      var post :| OwnsPost(st, g, post);
      assert post != id && OwnsPost(st', g, post);
    }
  }

  lemma DeletePostIsTidy(st: State, req: Request)
    requires Tidy(st) && req.DeletePost?
    ensures Tidy(DoDeletePost(st, req).state)
  {
    if ValidID(req.id) {
      PostDeletionStages(st, req);
      FewerRowsAreTidy(st, WithoutGrants(st, req.id));
      WithoutPostIsTidy(WithoutGrants(st, req.id), req.id);
    }
  }

  lemma DeleteUserIsTidy(st: State, req: Request)
    requires Tidy(st) && req.DeleteUser?
    ensures Tidy(DoDeleteUser(st, req).state)
  {
    if ValidID(req.target) {
      AccountDeletionStages(st, req);
      FewerRowsAreTidy(st, WithoutRows(st, req.target));
      FewerRowsAreTidy(st, WithoutUser(WithoutRows(st, req.target), req.target));
    }
  }

  lemma GrantIsTidy(st: State, user: string, post: string, fate: Fate)
    requires Tidy(st) && ValidID(user) && post in st.posts && st.posts[post] == UserRef(user)
    ensures Tidy(st.(authz := GrantOwnership(st.authz, user, post, fate)))
  {
    MintedRefs(user);
    MintedRefs(post);
    ActionsAreValid();
    var st' := st.(authz := GrantOwnership(st.authz, user, post, fate));
    forall g | g in st'.authz.grants ensures exists p :: OwnsPost(st', g, p) {
      if g in st.authz.grants {
        var p :| OwnsPost(st, g, p);
        assert OwnsPost(st', g, p);
      } else {
        assert OwnsPost(st', g, post);
      }
    }
  }

  lemma CreatePostIsTidy(st: State, req: Request)
    requires Tidy(st) && req.CreatePost? && DrawsFresh(st, req)
    ensures Tidy(DoCreatePost(st, req).state)
  {
    if req.viewer.Some? && req.viewer.value in st.users {
      var author := req.viewer.value;
      var drawn := st.(issued := st.issued + {req.id});
      var stored := if req.insert.Lands() then drawn.(posts := drawn.posts[req.id := UserRef(author)]) else drawn;
      forall g | g in stored.authz.grants ensures exists p :: OwnsPost(stored, g, p) {
        var p :| OwnsPost(st, g, p);
        assert OwnsPost(stored, g, p);
      }
      assert Tidy(stored);
      if req.insert == Works {
        var once := GrantOwnership(stored.authz, author, req.id, req.grant);
        GrantIsTidy(stored, author, req.id, req.grant);
        GrantIsTidy(stored.(authz := once), author, req.id, req.again);
      }
    }
  }

  lemma SignUpIsTidy(st: State, id: string, valid: bool, insert: Fate)
    requires Tidy(st) && ValidID(id)
    ensures Tidy(DoSignUp(st, id, valid, insert).state)
  {
    var st' := DoSignUp(st, id, valid, insert).state;
    forall g | g in st'.authz.grants ensures exists p :: OwnsPost(st', g, p) {
      var p :| OwnsPost(st, g, p);
      assert OwnsPost(st', g, p);
    }
  }

  lemma AssignIsTidy(st: State, user: string, role: string, fate: Fate)
    requires Tidy(st)
    ensures Tidy(st.(authz := Assign(st.authz, user, role, fate)))
  {
    var st' := st.(authz := Assign(st.authz, user, role, fate));
    forall g | g in st'.authz.grants ensures exists p :: OwnsPost(st', g, p) {
      var p :| OwnsPost(st, g, p);
      assert OwnsPost(st', g, p);
    }
  }

  /** Assigning the role, once or twice, and rolling the account back or not. */
  lemma HookIsTidy(made: State, id: string, hook: Fate, again: Fate)
    requires Tidy(made)
    ensures var once := made.(authz := Assign(made.authz, id, ADMIN, hook));
            var twice := made.(authz := Assign(once.authz, id, ADMIN, again));
            && Tidy(once) && Tidy(twice)
            && Tidy(made.(users := made.users - {id})) && Tidy(twice.(users := twice.users - {id}))
  {
    var once := made.(authz := Assign(made.authz, id, ADMIN, hook));
    var twice := made.(authz := Assign(once.authz, id, ADMIN, again));
    AssignIsTidy(made, id, ADMIN, hook);
    AssignIsTidy(once, id, ADMIN, again);
    FewerRowsAreTidy(made, made.(users := made.users - {id}));
    FewerRowsAreTidy(twice, twice.(users := twice.users - {id}));
  }

  /** A setup ends in the state it found, in that of its insert, or in one its hook left. */
  lemma SetupStates(st: State, req: Request)
    requires req.CompleteSetup?
    ensures var made := DoSignUp(st, req.id, req.valid, req.insert).state;
            var once := made.(authz := Assign(made.authz, req.id, ADMIN, req.hook));
            var twice := made.(authz := Assign(once.authz, req.id, ADMIN, req.again));
            var end := DoCompleteSetup(st, req).state;
            || end == st || end == made || end == once || end == twice
            || end == made.(users := made.users - {req.id}) || end == twice.(users := twice.users - {req.id})
  {
  }

  lemma CompleteSetupIsTidy(st: State, req: Request)
    requires Tidy(st) && req.CompleteSetup? && DrawsFresh(st, req)
    ensures Tidy(DoCompleteSetup(st, req).state)
  {
    SignUpIsTidy(st, req.id, req.valid, req.insert);
    HookIsTidy(DoSignUp(st, req.id, req.valid, req.insert).state, req.id, req.hook, req.again);
    SetupStates(st, req);
  }

  lemma ServeIsTidy(st: State, req: Request)
    requires Tidy(st) && DrawsFresh(st, req)
    ensures Tidy(Serve(st, req).state)
  {
    match req
    case SetRoles(_, _, _, _, _, _, _, _) => SetRolesIsTidy(st, req);
    case DeleteUser(_, _, _, _, _, _) => DeleteUserIsTidy(st, req);
    case CreatePost(_, _, _, _, _, _, _, _) => CreatePostIsTidy(st, req);
    case DeletePost(_, _, _, _, _, _) => DeletePostIsTidy(st, req);
    case SignUp(id, valid, insert) => SignUpIsTidy(st, id, valid, insert);
    case CompleteSetup(_, _, _, _, _, _, _, _) => CompleteSetupIsTidy(st, req);
  }

  lemma {:induction false} RunIsTidy(st: State, requests: seq<Request>, end: State)
    requires Tidy(st) && Run(st, requests, end)
    ensures Tidy(end)
    decreases |requests|
  {
    if requests != [] {
      ServeIsTidy(st, requests[0]);
      RunIsTidy(Serve(st, requests[0]).state, requests[1..], end);
    }
  }

  /** With handlers one at a time, whatever fails inside them: a grant over a post's reference
      is an ownership action of that post's author, and the post is there. */
  lemma GrantsNameStoredPosts(requests: seq<Request>, end: State, g: Z.Grant, id: string)
    requires Run(EMPTY, requests, end) && g in end.authz.grants && g.resource == PostRef(id)
    ensures OwnsPost(end, g, id)
  {
    RunIsTidy(EMPTY, requests, end);
    var post :| OwnsPost(end, g, post);
    RefsDiffer(id, post);
  }

  // ---------------------------------------------------------------- creators own what they create

  lemma GrantPermits(st: State, user: string, post: string, action: string)
    requires Tidy(st) && user in st.users && ValidID(post) && action in OWNERSHIP
    requires Z.Grant(UserRef(user), action, PostRef(post)) in st.authz.grants
    ensures Permit(st, Some(user), action, PostRef(post), true) == Done
  {
  }

  lemma GrantsStay(z: Z.State, user: string, post: string, first: Fate, second: Fate)
    requires ValidID(user) && ValidID(post)
    ensures var once := GrantOwnership(z, user, post, first);
            var twice := GrantOwnership(once, user, post, second);
            forall action :: action in OWNERSHIP ==>
              && (first.Lands() ==> Z.Grant(UserRef(user), action, PostRef(post)) in once.grants)
              && (first.Lands() || second.Lands() ==> Z.Grant(UserRef(user), action, PostRef(post)) in twice.grants)
  {
    MintedRefs(user);
    MintedRefs(post);
    ActionsAreValid();
  }

  /** A creation that reports success stored the post under its author, who may now read,
      change, delete and publish it. Once the post is stored, one reported grant is enough. */
  lemma CreatorsOwn(st: State, req: Request)
    requires Tidy(st) && req.CreatePost? && DrawsFresh(st, req)
    ensures var Result(end, answer) := DoCreatePost(st, req);
            && (answer == Done ==>
                  && req.viewer.Some? && req.id in end.posts && end.posts[req.id] == UserRef(req.viewer.value)
                  && forall action :: action in OWNERSHIP ==>
                       Permit(end, req.viewer, action, PostRef(req.id), true) == Done)
            && (req.id in end.posts && req.insert == Works ==>
                  (answer == Done <==> req.grant == Works || req.again == Works))
  {
    var end := DoCreatePost(st, req).state;
    CreatePostIsTidy(st, req);
    if DoCreatePost(st, req).answer == Done {
      var author := req.viewer.value;
      GrantsStay(st.authz, author, req.id, req.grant, req.again);
      forall action | action in OWNERSHIP ensures Permit(end, req.viewer, action, PostRef(req.id), true) == Done {
        GrantPermits(end, author, req.id, action);
      }
    }
  }

  // ---------------------------------------------------------------- an administrator remains

  ghost predicate Administered(st: State) {
    exists id :: id in st.users && Holds(st, id, ADMIN)
  }

  /** Of the seeded roles, and whatever has been granted, only the administrator role covers
      assigning roles and deleting accounts. */
  lemma OnlyAdministrators(st: State, viewer: string, action: string, target: string)
    requires Tidy(st) && viewer in st.users && ValidID(target) && action in {ROLE_ASSIGN, USER_DELETE}
    ensures Permit(st, Some(viewer), action, UserRef(target), true) == Done <==> Holds(st, viewer, ADMIN)
  {
    MintedRefs(viewer);
    MintedRefs(target);
    ActionsAreValid();
    var resource := UserRef(target);
    Z.ConcreteDecision(SEEDED, st.authz, UserRef(viewer), action, resource);
    Z.ConcreteQuery(resource);
    forall g | g in st.authz.grants ensures g.action != action {
      var post :| OwnsPost(st, g, post);
    }
    forall role ensures Z.RoleCovers(SEEDED, role, action, resource) <==> role == ADMIN {
      RoleCovers(role, action, resource);
    }
  }

  lemma RoleCovers(role: string, action: string, resource: string)
    ensures Z.RoleCovers(SEEDED, ADMIN, action, resource)
    ensures action != POST_CREATE && role != ADMIN ==> !Z.RoleCovers(SEEDED, role, action, resource)
  {
  }

  lemma OthersStay(st: State, viewer: string, target: string)
    requires viewer in st.users && Holds(st, viewer, ADMIN) && target != viewer
    ensures viewer in WithoutRows(st, target).users && Holds(WithoutRows(st, target), viewer, ADMIN)
    ensures viewer in WithoutUser(WithoutRows(st, target), target).users
    ensures Holds(WithoutUser(WithoutRows(st, target), target), viewer, ADMIN)
  {
    RefsDiffer(viewer, target);
  }

  /** Deleting an account leaves the one who deleted it, still an administrator. */
  lemma DeleterStays(st: State, req: Request)
    requires Tidy(st) && req.DeleteUser? && DoDeleteUser(st, req).state != st
    ensures req.viewer.Some? && req.viewer.value in DoDeleteUser(st, req).state.users
    ensures Holds(DoDeleteUser(st, req).state, req.viewer.value, ADMIN)
  {
    var viewer := req.viewer.value;
    OnlyAdministrators(st, viewer, USER_DELETE, req.target);
    AccountDeletionStages(st, req);
    OthersStay(st, viewer, req.target);
  }

  /** Replacing roles leaves the one who replaced them an administrator. */
  lemma AssignerStays(st: State, req: Request)
    requires Tidy(st) && req.SetRoles? && DoSetRoles(st, req).state != st
    ensures req.viewer.Some? && req.viewer.value in DoSetRoles(st, req).state.users
    ensures Holds(DoSetRoles(st, req).state, req.viewer.value, ADMIN)
  {
    var viewer := req.viewer.value;
    OnlyAdministrators(st, viewer, ROLE_ASSIGN, req.target);
    RefsDiffer(viewer, req.target);
    var a := Z.Assignment(UserRef(viewer), ADMIN);
    assert a in st.authz.assignments && (viewer == req.target ==> ADMIN in RolesOf(st.authz, viewer));
    ReplaceLeaves(st.authz, req.target, RolesOf(st.authz, req.target), Requested(req.form), AVAILABLE, req.fates, a);
  }

  /** Replacing roles touches neither other users nor roles that are held and stay requested. */
  lemma {:induction false} ReplaceLeaves(z: Z.State, user: string, held: set<string>, requested: set<string>,
                                         roles: seq<string>, fates: string -> Fate, a: Z.Assignment)
    requires a in z.assignments
    requires a.subject != UserRef(user) || (a.role in held && a.role in requested)
    ensures a in Replace(z, user, held, requested, roles, fates).0.assignments
    decreases |roles|
  {
    if roles != [] {
      var role := roles[0];
      if (role in requested) == (role in held) {
        ReplaceLeaves(z, user, held, requested, roles[1..], fates, a);
      } else {
        var z' := if role in requested then Assign(z, user, role, fates(role)) else Revoke(z, user, role, fates(role));
        ReplaceLeaves(z', user, held, requested, roles[1..], fates, a);
      }
    }
  }

  /** The other requests neither delete a stored account nor take a role away. */
  lemma OthersRemoveNobody(st: State, req: Request, id: string)
    requires !req.SetRoles? && !req.DeleteUser? && id in st.users && Holds(st, id, ADMIN)
    ensures id in Serve(st, req).state.users && Holds(Serve(st, req).state, id, ADMIN)
  {
    assert |st.users| != 0;
    match req
    case CreatePost(_, _, _, _, _, _, _, _) =>
      assert DoCreatePost(st, req).state.authz.assignments == st.authz.assignments;
    case _ =>
  }

  lemma StepStaysAdministered(st: State, req: Request)
    requires Tidy(st) && Administered(st)
    ensures Administered(Serve(st, req).state)
  {
    if Serve(st, req).state == st {
    } else if req.SetRoles? {
      AssignerStays(st, req);
    } else if req.DeleteUser? {
      DeleterStays(st, req);
    } else {
      var id :| id in st.users && Holds(st, id, ADMIN);
      OthersRemoveNobody(st, req, id);
    }
  }

  lemma {:induction false} RunStaysAdministered(st: State, requests: seq<Request>, end: State)
    requires Tidy(st) && Administered(st) && Run(st, requests, end)
    ensures Administered(end)
    decreases |requests|
  {
    if requests != [] {
      StepStaysAdministered(st, requests[0]);
      ServeIsTidy(st, requests[0]);
      RunStaysAdministered(Serve(st, requests[0]).state, requests[1..], end);
    }
  }

  lemma SetupAdministers(st: State, setup: Request)
    requires Tidy(st) && setup.CompleteSetup? && DrawsFresh(st, setup) && Serve(st, setup).answer == Done
    ensures Administered(Serve(st, setup).state)
  {
    MintedRefs(setup.id);
    var st' := Serve(st, setup).state;
    assert setup.id in st'.users && Holds(st', setup.id, ADMIN);
  }

  /** Handlers run one at a time while any call inside them may fail, or take effect and be
      reported failed. Once a setup has succeeded, every reachable state has a stored account
      that holds the administrator role. */
  lemma AnAdministratorRemains(before: seq<Request>, middle: State, setup: Request, later: seq<Request>, end: State)
    requires Run(EMPTY, before, middle)
    requires setup.CompleteSetup? && DrawsFresh(middle, setup) && Serve(middle, setup).answer == Done
    requires Run(Serve(middle, setup).state, later, end)
    ensures Administered(end)
  {
    RunIsTidy(EMPTY, before, middle);
    ServeIsTidy(middle, setup);
    SetupAdministers(middle, setup);
    RunStaysAdministered(Serve(middle, setup).state, later, end);
  }

  // ---------------------------------------------------------------- a rerun finishes the job

  /** The user's roles are exactly these, and nobody else's rows change. */
  function WithRoles(z: Z.State, user: string, roles: set<string>): Z.State {
    z.(assignments := (set a | a in z.assignments && a.subject != UserRef(user))
                      + (set role | role in roles :: Z.Assignment(UserRef(user), role)))
  }

  predicate Distinct(roles: seq<string>) {
    forall i, j :: 0 <= i < j < |roles| ==> roles[i] != roles[j]
  }

  /** Up to the first failure each differing role is changed or was reported failed; without
      failures every listed role ends as requested. */
  lemma {:induction false} ReplaceEffect(z: Z.State, user: string, held: set<string>, requested: set<string>,
                                         roles: seq<string>, fates: string -> Fate, a: Z.Assignment)
    requires ValidID(user) && Distinct(roles) && (forall role :: role in roles ==> role in AVAILABLE)
    requires forall role :: role in roles ==> (role in held <==> Z.Assignment(UserRef(user), role) in z.assignments)
    ensures var (z', answer) := Replace(z, user, held, requested, roles, fates);
            && z'.grants == z.grants
            && (a.subject != UserRef(user) || a.role !in roles ==> (a in z'.assignments <==> a in z.assignments))
            && (a.subject == UserRef(user) && a.role in roles ==>
                  || (a in z'.assignments <==> a.role in requested)
                  || (answer != Done && (a in z'.assignments <==> a in z.assignments)))
            && ((forall role :: fates(role) == Works) ==> answer == Done)
    decreases |roles|
  {
    MintedRefs(user);
    if roles != [] {
      var role, rest := roles[0], roles[1..];
      assert forall r :: r in rest ==> r in roles && r != role;
      if (role in requested) == (role in held) {
        ReplaceEffect(z, user, held, requested, rest, fates, a);
      } else {
        var z' := if role in requested then Assign(z, user, role, fates(role)) else Revoke(z, user, role, fates(role));
        if fates(role) == Works {
          ReplaceEffect(z', user, held, requested, rest, fates, a);
        }
      }
    }
  }

  lemma AvailableRoles()
    ensures Distinct(AVAILABLE) && forall role :: role in AVAILABLE <==> role in SEEDED
  {
  }

  /** A replacement that meets no failure leaves exactly the requested roles. */
  lemma CleanReplace(z: Z.State, user: string, requested: set<string>, fates: string -> Fate)
    requires ValidID(user) && (forall a :: a in z.assignments ==> a.role in AVAILABLE)
    requires (forall role :: fates(role) == Works) && (forall role :: role in requested ==> role in AVAILABLE)
    ensures Replace(z, user, RolesOf(z, user), requested, AVAILABLE, fates) == (WithRoles(z, user, requested), Done)
  {
    AvailableRoles();
    var held := RolesOf(z, user);
    forall role ensures role in held <==> Z.Assignment(UserRef(user), role) in z.assignments {}
    var z' := Replace(z, user, held, requested, AVAILABLE, fates).0;
    ReplaceEffect(z, user, held, requested, AVAILABLE, fates, Z.Assignment("", ""));
    forall a ensures a in z'.assignments <==> a in WithRoles(z, user, requested).assignments {
      ReplaceEffect(z, user, held, requested, AVAILABLE, fates, a);
      if a in z'.assignments && a.subject == UserRef(user) {
        assert a.role in AVAILABLE;
        assert a == Z.Assignment(UserRef(user), a.role);
      }
    }
    assert z'.assignments == WithRoles(z, user, requested).assignments;
  }

  /** An administrator submits this form and nothing fails. */
  function CleanRoles(viewer: string, target: string, form: seq<string>): Request {
    SetRoles(Some(viewer), target, form, true, true, true, true, role => Works)
  }

  lemma CleanRolesReplaces(st: State, viewer: string, target: string, form: seq<string>)
    requires Tidy(st) && viewer in st.users && Holds(st, viewer, ADMIN) && target in st.users
    requires target != viewer || ADMIN in form
    ensures Serve(st, CleanRoles(viewer, target, form))
         == Result(st.(authz := WithRoles(st.authz, target, Requested(form))), Done)
  {
    OnlyAdministrators(st, viewer, ROLE_ASSIGN, target);
    CleanReplace(st.authz, target, Requested(form), role => Works);
  }

  lemma SetRolesOnlyOneUser(st: State, first: Request, requested: set<string>)
    requires Tidy(st) && first.SetRoles? && ValidID(first.target)
    ensures var mid := Serve(st, first).state;
            && mid == st.(authz := mid.authz)
            && WithRoles(mid.authz, first.target, requested) == WithRoles(st.authz, first.target, requested)
  {
    var mid := Serve(st, first).state;
    var held := RolesOf(st.authz, first.target);
    AvailableRoles();
    forall role ensures role in held <==> Z.Assignment(UserRef(first.target), role) in st.authz.assignments {}
    forall a: Z.Assignment
      ensures a.subject != UserRef(first.target) ==>
                (a in mid.authz.assignments <==> a in st.authz.assignments)
    {
      ReplaceEffect(st.authz, first.target, held, Requested(first.form), AVAILABLE, first.fates, a);
    }
    ReplaceEffect(st.authz, first.target, held, Requested(first.form), AVAILABLE, first.fates, Z.Assignment("", ""));
    assert (set a | a in mid.authz.assignments && a.subject != UserRef(first.target))
        == (set a | a in st.authz.assignments && a.subject != UserRef(first.target));
  }

  /** However a first submission went, an administrator's failure-free rerun is authorized and
      leaves exactly the requested known roles, as if the first had never been; submitting the
      form once more changes nothing. */
  lemma RolesConverge(st: State, first: Request, viewer: string)
    requires Tidy(st) && viewer in st.users && Holds(st, viewer, ADMIN)
    requires first.SetRoles? && first.target in st.users && (first.target != viewer || ADMIN in first.form)
    ensures var rerun := CleanRoles(viewer, first.target, first.form);
            var end := Serve(Serve(st, first).state, rerun);
            && end == Result(st.(authz := WithRoles(st.authz, first.target, Requested(first.form))), Done)
            && RolesOf(end.state.authz, first.target) == Requested(first.form)
            && Serve(end.state, rerun) == end
  {
    var mid := Serve(st, first).state;
    var target, form := first.target, first.form;
    ServeIsTidy(st, first);
    KeepsViewer(st, first, viewer);
    SetRolesOnlyOneUser(st, first, Requested(form));
    CleanRolesReplaces(mid, viewer, target, form);
    var end := Serve(mid, CleanRoles(viewer, target, form)).state;
    RolesOfWithRoles(st.authz, target, Requested(form));
    ServeIsTidy(mid, CleanRoles(viewer, target, form));
    KeepsViewer(mid, CleanRoles(viewer, target, form), viewer);
    CleanRolesReplaces(end, viewer, target, form);
    assert WithRoles(end.authz, target, Requested(form)).assignments == end.authz.assignments;
  }

  lemma RolesOfWithRoles(z: Z.State, user: string, roles: set<string>)
    ensures RolesOf(WithRoles(z, user, roles), user) == roles
  {
  }

  /** A role submission that does not drop its own viewer's role, or is about somebody else,
      keeps this administrator. */
  lemma KeepsViewer(st: State, req: Request, viewer: string)
    requires Tidy(st) && viewer in st.users && Holds(st, viewer, ADMIN) && req.SetRoles? && ValidID(req.target)
    requires req.target != viewer || ADMIN in req.form
    ensures viewer in Serve(st, req).state.users && Holds(Serve(st, req).state, viewer, ADMIN)
  {
    RefsDiffer(viewer, req.target);
    var a := Z.Assignment(UserRef(viewer), ADMIN);
    assert viewer == req.target ==> ADMIN in RolesOf(st.authz, viewer);
    ReplaceLeaves(st.authz, req.target, RolesOf(st.authz, req.target), Requested(req.form), AVAILABLE, req.fates, a);
  }

  predicate Has(z: Z.State, user: string, role: string) { Z.Assignment(UserRef(user), role) in z.assignments }

  /** The roles before the k-th are as requested, those after it as they were, and the k-th is
      one that had to change and whose call was reported failed: it is as that call left it. */
  ghost predicate CarriedOut(z: Z.State, z': Z.State, user: string, requested: set<string>,
                             roles: seq<string>, fates: string -> Fate, k: nat)
  {
    && k <= |roles|
    && (forall i :: 0 <= i < k ==> (Has(z', user, roles[i]) <==> roles[i] in requested))
    && (forall i :: k < i < |roles| ==> (Has(z', user, roles[i]) <==> Has(z, user, roles[i])))
    && (k < |roles| ==>
          && (Has(z, user, roles[k]) <==> roles[k] !in requested)
          && fates(roles[k]) != Works
          && (Has(z', user, roles[k])
              <==> if fates(roles[k]).Lands() then roles[k] in requested else Has(z, user, roles[k])))
  }

  lemma CarriedOutMore(z: Z.State, z1: Z.State, z': Z.State, user: string, requested: set<string>,
                       roles: seq<string>, fates: string -> Fate, k: nat)
    requires roles != [] && CarriedOut(z1, z', user, requested, roles[1..], fates, k)
    requires Has(z', user, roles[0]) <==> roles[0] in requested
    requires forall i :: 0 < i < |roles| ==> (Has(z1, user, roles[i]) <==> Has(z, user, roles[i]))
    ensures CarriedOut(z, z', user, requested, roles, fates, k + 1)
  {
    var rest := roles[1..];
    assert forall i :: 0 < i < |roles| ==> roles[i] == rest[i - 1];
  }

  /** One turn of the loop. */
  function ChangeTo(z: Z.State, user: string, held: set<string>, requested: set<string>,
                    role: string, fate: Fate): Z.State
  {
    if (role in requested) == (role in held) then z
    else if role in requested then Assign(z, user, role, fate) else Revoke(z, user, role, fate)
  }

  lemma ChangeEffect(z: Z.State, user: string, held: set<string>, requested: set<string>,
                     role: string, fate: Fate, other: string)
    requires ValidID(user) && role in AVAILABLE && (role in held <==> Has(z, user, role))
    ensures var z1 := ChangeTo(z, user, held, requested, role, fate);
            && (other != role ==> (Has(z1, user, other) <==> Has(z, user, other)))
            && (Has(z1, user, role) <==> if fate.Lands() then role in requested else Has(z, user, role))
  {
    MintedRefs(user);
  }

  /** The loop's first turn, and the rest of it unless that turn was reported failed. */
  lemma ReplaceUnfolds(z: Z.State, user: string, held: set<string>, requested: set<string>,
                       roles: seq<string>, fates: string -> Fate)
    requires roles != []
    ensures var z1 := ChangeTo(z, user, held, requested, roles[0], fates(roles[0]));
            Replace(z, user, held, requested, roles, fates)
            == if (roles[0] in requested) != (roles[0] in held) && fates(roles[0]) != Works then (z1, Failed)
               else Replace(z1, user, held, requested, roles[1..], fates)
  {
  }

  lemma {:induction false} ReplaceStops(z: Z.State, user: string, held: set<string>, requested: set<string>,
                                        roles: seq<string>, fates: string -> Fate) returns (k: nat)
    requires ValidID(user) && Distinct(roles) && (forall role :: role in roles ==> role in AVAILABLE)
    requires forall role :: role in roles ==> (role in held <==> Has(z, user, role))
    ensures var (z', answer) := Replace(z, user, held, requested, roles, fates);
            CarriedOut(z, z', user, requested, roles, fates, k) && (answer == Done <==> k == |roles|)
    decreases |roles|
  {
    k := 0;
    if roles != [] {
      var role, rest := roles[0], roles[1..];
      var z1 := ChangeTo(z, user, held, requested, role, fates(role));
      assert forall r :: r in rest ==> r in roles && r != role;
      ReplaceUnfolds(z, user, held, requested, roles, fates);
      forall other ensures other != role ==> (Has(z1, user, other) <==> Has(z, user, other)) {
        ChangeEffect(z, user, held, requested, role, fates(role), other);
      }
      ChangeEffect(z, user, held, requested, role, fates(role), role);
      if (role in requested) == (role in held) || fates(role) == Works {
        var further := ReplaceStops(z1, user, held, requested, rest, fates);
        var z' := Replace(z1, user, held, requested, rest, fates).0;
        ReplaceEffect(z1, user, held, requested, rest, fates, Z.Assignment(UserRef(user), role));
        CarriedOutMore(z, z1, z', user, requested, roles, fates, further);
        k := further + 1;
      }
    }
  }

  /** The submission gets past its checks and its self guard. */
  predicate ReachesLoop(st: State, req: Request)
    requires req.SetRoles?
  {
    && AuthorizeUser(st, req.viewer, req.target, ROLE_ASSIGN, req.check, req.load) == Done
    && req.parse && req.list
    && !(req.viewer == Some(req.target) && ADMIN !in Requested(req.form) && ADMIN in RolesOf(st.authz, req.target))
  }

  /** A submission that does not reach the loop changes nothing. One that does carries out the
      available roles in order up to the first call reported failed, and succeeds exactly when
      there is none. */
  lemma PartialRoles(st: State, req: Request) returns (k: nat)
    requires req.SetRoles?
    ensures var Result(st', answer) := Serve(st, req);
            && (!ReachesLoop(st, req) ==> st' == st && answer != Done)
            && (ReachesLoop(st, req) ==>
                  && st' == st.(authz := st'.authz)
                  && CarriedOut(st.authz, st'.authz, req.target, Requested(req.form), AVAILABLE, req.fates, k)
                  && (answer == Done <==> k == |AVAILABLE|))
  {
    k := 0;
    if ReachesLoop(st, req) {
      AvailableRoles();
      var held := RolesOf(st.authz, req.target);
      forall role ensures role in held <==> Has(st.authz, req.target, role) {}
      k := ReplaceStops(st.authz, req.target, held, Requested(req.form), AVAILABLE, req.fates);
    }
  }

  /** An absent post has no grants left to purge. */
  lemma AbsentPostHasNoGrants(st: State, id: string)
    requires Tidy(st) && id !in st.posts
    ensures st == WithoutPost(WithoutGrants(st, id), id)
  {
    forall g | g in st.authz.grants ensures g.resource != PostRef(id) {
      var post :| OwnsPost(st, g, post);
      RefsDiffer(post, id);
    }
    assert WithoutGrants(st, id).authz.grants == st.authz.grants;
    assert st.posts - {id} == st.posts;
  }

  lemma AuthorizedDeletion(st: State, req: Request)
    requires req.DeletePost? && ValidID(req.id) && req.purge == Works && req.delete == Works
    requires AuthorizePost(st, req.viewer, req.id, POST_DELETE, req.check, req.load) == Done
    ensures Serve(st, req) == Result(WithoutPost(WithoutGrants(st, req.id), req.id), Done)
  {
  }

  lemma CleanPostDeletion(st: State, viewer: string, id: string)
    requires Tidy(st) && viewer in st.users && Holds(st, viewer, ADMIN) && ValidID(id)
    ensures Serve(st, DeletePost(Some(viewer), id, true, true, Works, Works))
         == Result(WithoutPost(WithoutGrants(st, id), id), if id in st.posts then Done else NotFound)
  {
    AdministratorMayDelete(st, viewer, id);
    if id in st.posts {
      AuthorizedDeletion(st, DeletePost(Some(viewer), id, true, true, Works, Works));
    } else {
      AbsentPostHasNoGrants(st, id);
    }
  }

  /** However a first deletion went, an administrator's failure-free rerun is authorized and
      leaves no post and no grant over it, as if the first had never been. */
  lemma PostDeletionConverges(st: State, first: Request, viewer: string)
    requires Tidy(st) && viewer in st.users && Holds(st, viewer, ADMIN)
    requires first.DeletePost? && ValidID(first.id)
    ensures var mid := Serve(st, first).state;
            Serve(mid, DeletePost(Some(viewer), first.id, true, true, Works, Works))
            == Result(WithoutPost(WithoutGrants(st, first.id), first.id),
                      if first.id in mid.posts then Done else NotFound)
  {
    var mid := Serve(st, first).state;
    ServeIsTidy(st, first);
    PostDeletionStages(st, first);
    CleanPostDeletion(mid, viewer, first.id);
    assert WithoutPost(WithoutGrants(mid, first.id), first.id) == WithoutPost(WithoutGrants(st, first.id), first.id);
  }

  lemma AdministratorMayDelete(st: State, viewer: string, id: string)
    requires Tidy(st) && viewer in st.users && Holds(st, viewer, ADMIN) && ValidID(id)
    ensures Permit(st, Some(viewer), POST_DELETE, PostRef(id), true) == Done
  {
    MintedRefs(viewer);
    MintedRefs(id);
    ActionsAreValid();
    assert POST_DELETE in OWNERSHIP by { assert OWNERSHIP[2] == POST_DELETE; }
    Z.ConcreteDecision(SEEDED, st.authz, UserRef(viewer), POST_DELETE, PostRef(id));
    Z.ConcreteQuery(PostRef(id));
    RoleCovers(ADMIN, POST_DELETE, PostRef(id));
  }

  lemma CleanAccountDeletion(st: State, viewer: string, target: string)
    requires Tidy(st) && viewer in st.users && Holds(st, viewer, ADMIN) && ValidID(target) && target != viewer
    ensures Serve(st, DeleteUser(Some(viewer), target, true, true, Works, Works))
         == if target in st.users then Result(WithoutUser(WithoutRows(st, target), target), Done)
            else Result(st, NotFound)
  {
    MintedRefs(target);
    OnlyAdministrators(st, viewer, USER_DELETE, target);
  }

  lemma RowsGoOnce(st: State, user: string)
    ensures WithoutRows(WithoutRows(st, user), user) == WithoutRows(st, user)
  {
  }

  /** However a first deletion of an account went, another administrator's failure-free rerun
      is authorized and leaves neither the account nor a role nor a grant of it. */
  lemma AccountDeletionConverges(st: State, first: Request, viewer: string)
    requires Tidy(st) && viewer in st.users && Holds(st, viewer, ADMIN)
    requires first.DeleteUser? && first.target in st.users && first.target != viewer
    ensures var mid := Serve(st, first).state;
            Serve(mid, DeleteUser(Some(viewer), first.target, true, true, Works, Works))
            == Result(WithoutUser(WithoutRows(st, first.target), first.target),
                      if first.target in mid.users then Done else NotFound)
  {
    var mid, target := Serve(st, first).state, first.target;
    OthersStay(st, viewer, target);
    RowsGoOnce(st, target);
    ServeIsTidy(st, first);
    AccountDeletionStages(st, first);
    CleanAccountDeletion(mid, viewer, target);
  }

  // ---------------------------------------------------------------- the server

  class Server {
    const authz: Z.Service
    var users: set<string>
    var issued: set<string>
    var posts: map<string, string>

    constructor ()
      ensures fresh(authz) && Valid() && Current() == EMPTY
    {
      authz := new Z.Service(SEEDED);
      users, issued, posts := {}, {}, map[];
    }

    predicate Valid() { authz.roles == SEEDED }

    function Current(): State
      reads this, authz
    {
      State(users, issued, posts, authz.Current())
    }

    method RequirePermission(viewer: Option<string>, action: string, resource: string, check: bool)
      returns (answer: Answer)
      requires Valid()
      ensures answer == Permit(Current(), viewer, action, resource, check)
    {
      if viewer.None? || viewer.value !in users {
        return SignInFirst;
      }
      var decision := authz.Check(UserRef(viewer.value), action, resource, check);
      if !decision.Decided? {
        return Failed;
      }
      return if decision.allowed then Done else Forbidden;
    }

    method CheckUser(viewer: Option<string>, target: string, action: string, check: bool, load: bool)
      returns (answer: Answer)
      requires Valid()
      ensures answer == AuthorizeUser(Current(), viewer, target, action, check, load)
    {
      if !ValidID(target) {
        return NotFound;
      }
      answer := RequirePermission(viewer, action, UserRef(target), check);
      if answer != Done {
        return;
      }
      if !load {
        return Failed;
      }
      return if target in users then Done else NotFound;
    }

    method CheckPost(viewer: Option<string>, id: string, action: string, check: bool, load: bool)
      returns (answer: Answer)
      requires Valid()
      ensures answer == AuthorizePost(Current(), viewer, id, action, check, load)
    {
      if !ValidID(id) {
        return NotFound;
      }
      answer := RequirePermission(viewer, action, PostRef(id), check);
      if answer != Done {
        return;
      }
      if !load {
        return Failed;
      }
      return if id in posts then Done else NotFound;
    }

    /** Only roles that exist are considered. */
    method Known(form: seq<string>) returns (requested: seq<string>)
      ensures (set role | role in requested) == Requested(form)
    {
      requested := [];
      for i := 0 to |form|
        invariant forall role :: role in requested <==> role in form[..i] && role in AVAILABLE
      {
        assert form[..i + 1] == form[..i] + [form[i]];
        if form[i] in AVAILABLE {
          requested := requested + [form[i]];
        }
      }
      assert form[..|form|] == form;
    }

    method ChangeRole(target: string, role: string, held: set<string>, requested: seq<string>, fates: string -> Fate)
      returns (ok: bool)
      requires Valid() && ValidID(target) && role in AVAILABLE
      modifies authz
      ensures (role in requested) == (role in held) ==> ok && authz.Current() == old(authz.Current())
      ensures (role in requested) != (role in held) ==> ok == (fates(role) == Works)
      ensures role in requested && role !in held ==>
                authz.Current() == Assign(old(authz.Current()), target, role, fates(role))
      ensures role !in requested && role in held ==>
                authz.Current() == Revoke(old(authz.Current()), target, role, fates(role))
    {
      AvailableRoles();
      MintedRefs(target);
      var changed := Z.Done;
      if role in requested && role !in held {
        changed := authz.Assign(UserRef(target), role, true, fates(role));
      } else if role !in requested && role in held {
        changed := authz.Revoke(UserRef(target), role, fates(role));
      }
      return changed == Z.Done;
    }

    method ReplaceRoles(target: string, held: set<string>, requested: seq<string>, fates: string -> Fate)
      returns (answer: Answer)
      requires Valid() && ValidID(target)
      modifies authz
      ensures (authz.Current(), answer)
           == Replace(old(authz.Current()), target, held, (set role | role in requested), AVAILABLE, fates)
    {
      ghost var wanted := set role | role in requested;
      assert AVAILABLE[0..] == AVAILABLE;
      for i := 0 to |AVAILABLE|
        invariant Replace(old(authz.Current()), target, held, wanted, AVAILABLE, fates)
               == Replace(authz.Current(), target, held, wanted, AVAILABLE[i..], fates)
      {
        assert AVAILABLE[i..][1..] == AVAILABLE[i + 1..];
        var ok := ChangeRole(target, AVAILABLE[i], held, requested, fates);
        if !ok {
          return Failed;
        }
      }
      return Done;
    }

    /** The whole role set is replaced. */
    method SetUserRoles(viewer: Option<string>, target: string, form: seq<string>,
                        check: bool, load: bool, parse: bool, list: bool, fates: string -> Fate)
      returns (answer: Answer)
      requires Valid()
      modifies authz
      ensures Result(Current(), answer)
           == DoSetRoles(old(Current()), SetRoles(viewer, target, form, check, load, parse, list, fates))
    {
      answer := CheckUser(viewer, target, ROLE_ASSIGN, check, load);
      if answer != Done {
        return;
      }
      if !parse {
        return Rejected;
      }
      if !list {
        return Failed;
      }
      var held := RolesOf(authz.Current(), target);
      var requested := Known(form);
      assert ADMIN in requested <==> ADMIN in Requested(form);
      if viewer == Some(target) && ADMIN !in requested && ADMIN in held {
        return NotOnYourself;
      }
      answer := ReplaceRoles(target, held, requested, fates);
    }

    /** Roles and grants go before the account. */
    method RemoveUser(viewer: Option<string>, target: string, check: bool, load: bool, purge: Fate, delete: Fate)
      returns (answer: Answer)
      requires Valid()
      modifies this, authz
      ensures Result(Current(), answer)
           == DoDeleteUser(old(Current()), DeleteUser(viewer, target, check, load, purge, delete))
    {
      answer := CheckUser(viewer, target, USER_DELETE, check, load);
      if answer != Done {
        return;
      }
      if viewer == Some(target) {
        return NotOnYourself;
      }
      MintedRefs(target);
      var purged := authz.PurgeAllOf(UserRef(target), purge);
      if purged != Z.Done {
        return Failed;
      }
      if delete.Lands() {
        users := users - {target};
      }
      return if delete == Works then Done else Failed;
    }

    /** Tries the grants of a new post's author twice. */
    method GrantPostOwnership(user: string, post: string, grant: Fate, again: Fate) returns (ok: bool)
      requires Valid() && ValidID(user) && ValidID(post)
      modifies authz
      ensures ok <==> grant == Works || again == Works
      ensures authz.Current()
           == if grant == Works then GrantOwnership(old(authz.Current()), user, post, grant)
              else GrantOwnership(GrantOwnership(old(authz.Current()), user, post, grant), user, post, again)
    {
      MintedRefs(user);
      MintedRefs(post);
      ActionsAreValid();
      var granted := authz.GrantAll(UserRef(user), OWNERSHIP, PostRef(post), grant);
      if granted == Z.Done {
        return true;
      }
      granted := authz.GrantAll(UserRef(user), OWNERSHIP, PostRef(post), again);
      return granted == Z.Done;
    }

    method NewPost(viewer: Option<string>, id: string, check: bool, parse: bool, valid: bool,
                   insert: Fate, grant: Fate, again: Fate) returns (answer: Answer)
      requires Valid() && ValidID(id) && (viewer.Some? ==> ValidID(viewer.value))
      modifies this, authz
      ensures Result(Current(), answer)
           == DoCreatePost(old(Current()), CreatePost(viewer, id, check, parse, valid, insert, grant, again))
    {
      answer := RequirePermission(viewer, POST_CREATE, ANY_POST, check);
      if answer != Done {
        return;
      }
      if !parse || !valid {
        return Rejected;
      }
      issued := issued + {id};
      if insert.Lands() {
        posts := posts[id := UserRef(viewer.value)];
      }
      if insert != Works {
        return Failed;
      }
      var granted := GrantPostOwnership(viewer.value, id, grant, again);
      return if granted then Done else Failed;
    }

    /** Grants go before the post. */
    method RemovePost(viewer: Option<string>, id: string, check: bool, load: bool, purge: Fate, delete: Fate)
      returns (answer: Answer)
      requires Valid()
      modifies this, authz
      ensures Result(Current(), answer)
           == DoDeletePost(old(Current()), DeletePost(viewer, id, check, load, purge, delete))
    {
      answer := CheckPost(viewer, id, POST_DELETE, check, load);
      if answer != Done {
        return;
      }
      assert IsRef(PostRef(id)) by { MintedRefs(id); }
      var purged := authz.PurgeAllOver(PostRef(id), purge);
      if purged != Z.Done {
        return Failed;
      }
      if delete.Lands() {
        posts := posts - {id};
      }
      return if delete == Works then Done else Failed;
    }

    method AddUser(id: string, valid: bool, insert: Fate) returns (answer: Answer)
      modifies this
      ensures Result(Current(), answer) == DoSignUp(old(Current()), id, valid, insert)
    {
      if !valid {
        return Rejected;
      }
      issued := issued + {id};
      if insert.Lands() {
        users := users + {id};
      }
      return if insert == Works then Done else Failed;
    }

    /** Makes the new account an administrator, trying again once. */
    method OnFirstUser(id: string, hook: Fate, again: Fate) returns (ok: bool)
      requires Valid() && ValidID(id)
      modifies authz
      ensures ok <==> hook == Works || again == Works
      ensures authz.Current()
           == if hook == Works then Assign(old(authz.Current()), id, ADMIN, hook)
              else Assign(Assign(old(authz.Current()), id, ADMIN, hook), id, ADMIN, again)
    {
      MintedRefs(id);
      AvailableRoles();
      var given := authz.Assign(UserRef(id), ADMIN, true, hook);
      if given == Z.Done {
        return true;
      }
      given := authz.Assign(UserRef(id), ADMIN, true, again);
      return given == Z.Done;
    }

    /** The first account; whatever goes wrong after its insertion rolls it back. */
    method FirstRun(id: string, count: bool, valid: bool, insert: Fate, recount: bool,
                    hook: Fate, again: Fate, rollback: Fate) returns (answer: Answer)
      requires Valid() && ValidID(id)
      modifies this, authz
      ensures Result(Current(), answer)
           == DoCompleteSetup(old(Current()), CompleteSetup(id, count, valid, insert, recount, hook, again, rollback))
    {
      if !count {
        return Failed;
      }
      if |users| != 0 {
        return SetupClosed;
      }
      answer := AddUser(id, valid, insert);
      if answer != Done {
        return;
      }
      if !recount || |users| != 1 {
        RollBack(id, rollback);
        return if recount then SetupClosed else Failed;
      }
      var hooked := OnFirstUser(id, hook, again);
      if !hooked {
        RollBack(id, rollback);
        return Failed;
      }
    }

    method RollBack(id: string, rollback: Fate)
      modifies this`users
      ensures users == if rollback.Lands() then old(users) - {id} else old(users)
    {
      if rollback.Lands() {
        users := users - {id};
      }
    }
  }
}
