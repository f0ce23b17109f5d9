/** Whom the site lets do what, what each request is answered, and what it leaves alone. */
module SiteAnswers {
  import opened Calls
  import opened Refs
  import opened Site
  import Z = Authz

  // ---------------------------------------------------------------- who may

  predicate SignedIn(st: State, viewer: Option<string>) { viewer.Some? && viewer.value in st.users }

  predicate IsAdmin(st: State, viewer: Option<string>) { SignedIn(st, viewer) && Holds(st, viewer.value, ADMIN) }

  /** Administrators and authors create posts. */
  predicate MayCreate(st: State, viewer: Option<string>) {
    SignedIn(st, viewer) && (Holds(st, viewer.value, ADMIN) || Holds(st, viewer.value, AUTHOR))
  }

  /** Administrators delete posts, and so does whoever has that grant over this one. */
  predicate MayDelete(st: State, viewer: Option<string>, id: string) {
    SignedIn(st, viewer)
    && (Holds(st, viewer.value, ADMIN)
        || Z.Grant(UserRef(viewer.value), "post.delete", PostRef(id)) in st.authz.grants)
  }

  lemma Deleters(st: State, viewer: string, id: string)
    requires Tidy(st) && viewer in st.users && ValidID(id)
    ensures Permit(st, Some(viewer), POST_DELETE, PostRef(id), true)
         == if MayDelete(st, Some(viewer), id) then Done else Forbidden
  {
    var subject, resource := UserRef(viewer), PostRef(id);
    MintedRefs(viewer);
    MintedRefs(id);
    ActionsAreValid();
    assert POST_DELETE in OWNERSHIP by { assert OWNERSHIP[2] == POST_DELETE; }
    Z.ConcreteDecision(SEEDED, st.authz, subject, POST_DELETE, resource);
    Z.ConcreteQuery(resource);
    forall role ensures Z.RoleCovers(SEEDED, role, POST_DELETE, resource) <==> role == ADMIN {
      RoleCovers(role, POST_DELETE, resource);
    }
  }

  /** `urn:content:post:*` may be asked about. */
  lemma AnyPostIsAClass()
    ensures Z.ClassPrefix(PostRef(""), "content", "post", "") && Z.ValidQuery(ANY_POST)
  {
    assert Z.ClassPrefix(PostRef(""), "content", "post", "");
    Z.WildcardQueries(PostRef(""));
  }

  lemma Creators(st: State, viewer: string)
    requires Tidy(st) && viewer in st.users
    ensures Permit(st, Some(viewer), POST_CREATE, ANY_POST, true)
         == if MayCreate(st, Some(viewer)) then Done else Forbidden
  {
    var subject := UserRef(viewer);
    var roles := Z.SubjectPatterns(SEEDED, st.authz.(grants := {}), subject);
    MintedRefs(viewer);
    ActionsAreValid();
    AnyPostIsAClass();
    Z.GrantsNeverAnswerClasses(SEEDED, st.authz, subject, POST_CREATE, PostRef(""));
    if Holds(st, viewer, ADMIN) {
      assert Z.Assignment(subject, ADMIN) in st.authz.assignments && EVERYTHING in SEEDED[ADMIN];
    }
    if Holds(st, viewer, AUTHOR) {
      var p := Z.Pattern(POST_CREATE, ANY_POST);
      assert Z.Assignment(subject, AUTHOR) in st.authz.assignments && p in SEEDED[AUTHOR];
      assert p in roles;
      Z.MatchesExactly(PostRef(""), ANY_POST);
    }
    forall a | a in st.authz.assignments && a.subject == subject && a.role in SEEDED && SEEDED[a.role] != {}
      ensures MayCreate(st, Some(viewer))
    {
      assert a == Z.Assignment(subject, a.role);
    }
  }

  lemma Administrators(st: State, viewer: string, action: string, target: string)
    requires Tidy(st) && viewer in st.users && ValidID(target) && action in {ROLE_ASSIGN, USER_DELETE}
    ensures Permit(st, Some(viewer), action, UserRef(target), true)
         == if IsAdmin(st, Some(viewer)) then Done else Forbidden
  {
    OnlyAdministrators(st, viewer, action, target);
    MintedRefs(viewer);
    MintedRefs(target);
    ActionsAreValid();
    Z.ConcreteQuery(UserRef(target));
  }

  // ---------------------------------------------------------------- posts

  /** Who is told what by a deletion, when it succeeds, and what it changes. */
  lemma PostDeletionAnswers(st: State, req: Request)
    requires Tidy(st) && req.DeletePost?
    ensures var Result(end, answer) := Serve(st, req);
            var reached := MayDelete(st, req.viewer, req.id) && req.check && req.load;
            && (answer == Done
                <==> ValidID(req.id) && reached && req.id in st.posts && req.purge == Works && req.delete == Works)
            && (answer == SignInFirst <==> ValidID(req.id) && !SignedIn(st, req.viewer))
            && (answer == Forbidden
                <==> && ValidID(req.id) && SignedIn(st, req.viewer) && req.check
                     && !MayDelete(st, req.viewer, req.id))
            && (answer == NotFound <==> !ValidID(req.id) || (reached && req.id !in st.posts))
            && (end != st ==> reached && req.id in st.posts)
            && end.users == st.users && end.authz.assignments == st.authz.assignments
            && (answer == Done ==> end.posts == st.posts - {req.id})
            && (answer == Done ==>
                  forall g :: g in end.authz.grants <==> g in st.authz.grants && g.resource != PostRef(req.id))
  {
    if ValidID(req.id) {
      PostDeletionStages(st, req);
      MintedRefs(req.id);
      if SignedIn(st, req.viewer) {
        Deleters(st, req.viewer.value, req.id);
      }
    }
  }

  /** Who is told what by a creation, when it succeeds, and what it changes. */
  lemma PostCreationAnswers(st: State, req: Request)
    requires Tidy(st) && req.CreatePost? && DrawsFresh(st, req)
    ensures var Result(end, answer) := Serve(st, req);
            var reached := MayCreate(st, req.viewer) && req.check;
            && (answer == Done
                <==> && reached && req.parse && req.valid && req.insert == Works
                     && (req.grant == Works || req.again == Works))
            && (answer == SignInFirst <==> !SignedIn(st, req.viewer))
            && (answer == Forbidden <==> SignedIn(st, req.viewer) && req.check && !MayCreate(st, req.viewer))
            && (answer == Rejected <==> reached && !(req.parse && req.valid))
            && (end != st ==> reached && req.parse && req.valid)
            && end.users == st.users && end.authz.assignments == st.authz.assignments
            && (end.posts == if reached && req.parse && req.valid && req.insert.Lands()
                             then st.posts[req.id := UserRef(req.viewer.value)] else st.posts)
            && (answer == Done ==> forall g :: g in end.authz.grants <==>
                  g in st.authz.grants || IsOwnership(g, req.viewer.value, req.id))
  {
    if SignedIn(st, req.viewer) {
      Creators(st, req.viewer.value);
    }
    CreationAnswers(st, req);
    CreationWrites(st, req);
    if Serve(st, req).answer == Done {
      CreationGrants(st, req);
    }
  }

  /** The author may read, change, delete and publish the post. */
  predicate IsOwnership(g: Z.Grant, author: string, post: string) {
    && g.subject == UserRef(author) && g.resource == PostRef(post)
    && g.action in {"post.read", "post.update", "post.delete", "post.publish"}
  }

  lemma OwnershipGiven(z: Z.State, author: string, post: string, fate: Fate, g: Z.Grant)
    requires ValidID(author) && ValidID(post)
    ensures g in GrantOwnership(z, author, post, fate).grants
       <==> g in z.grants || (fate.Lands() && IsOwnership(g, author, post))
  {
    MintedRefs(author);
    MintedRefs(post);
    ActionsAreValid();
    FourActions(g.action);
  }

  lemma FourActions(action: string)
    ensures action in OWNERSHIP <==> action in {"post.read", "post.update", "post.delete", "post.publish"}
  {
    assert OWNERSHIP[0] == "post.read" && OWNERSHIP[1] == "post.update";
    assert OWNERSHIP[2] == "post.delete" && OWNERSHIP[3] == "post.publish";
  }

  lemma CreationGrants(st: State, req: Request)
    requires Tidy(st) && req.CreatePost? && DrawsFresh(st, req) && DoCreatePost(st, req).answer == Done
    ensures forall g :: g in DoCreatePost(st, req).state.authz.grants <==>
              g in st.authz.grants || IsOwnership(g, req.viewer.value, req.id)
  {
    var author := req.viewer.value;
    forall g ensures g in DoCreatePost(st, req).state.authz.grants <==>
                       g in st.authz.grants || IsOwnership(g, author, req.id)
    {
      OwnershipGiven(st.authz, author, req.id, req.grant, g);
      OwnershipGiven(GrantOwnership(st.authz, author, req.id, req.grant), author, req.id, req.again, g);
    }
  }

  lemma CreationAnswers(st: State, req: Request)
    requires req.CreatePost?
    ensures var permit := Permit(st, req.viewer, POST_CREATE, ANY_POST, req.check);
            DoCreatePost(st, req).answer
            == if permit != Done then permit
               else if !req.parse || !req.valid then Rejected
               else if req.insert == Works && (req.grant == Works || req.again == Works) then Done
               else Failed
  {
  }

  lemma CreationWrites(st: State, req: Request)
    requires req.CreatePost?
    ensures var end := DoCreatePost(st, req).state;
            var reached := Permit(st, req.viewer, POST_CREATE, ANY_POST, req.check) == Done && req.parse && req.valid;
            && (!reached ==> end == st)
            && end.users == st.users && end.authz.assignments == st.authz.assignments
            && (reached ==> end.posts == if req.insert.Lands() then st.posts[req.id := UserRef(req.viewer.value)]
                                         else st.posts)
  {
  }

  // ---------------------------------------------------------------- roles

  lemma {:induction false} ReplaceReports(z: Z.State, user: string, held: set<string>, requested: set<string>,
                                          roles: seq<string>, fates: string -> Fate)
    ensures Replace(z, user, held, requested, roles, fates).1 == Done
       <==> forall i :: 0 <= i < |roles| && ((roles[i] in requested) != (roles[i] in held)) ==> fates(roles[i]) == Works
    decreases |roles|
  {
    if roles != [] {
      var role, rest := roles[0], roles[1..];
      var changed := if role in requested then Assign(z, user, role, fates(role))
                     else Revoke(z, user, role, fates(role));
      ReplaceReports(z, user, held, requested, rest, fates);
      ReplaceReports(changed, user, held, requested, rest, fates);
      assert forall i :: 0 < i < |roles| ==> roles[i] == rest[i - 1];
      assert forall i :: 0 <= i < |rest| ==> rest[i] == roles[i + 1];
    }
  }

  /** The role is held exactly as the form asks, or the call that makes it so works. */
  predicate Settles(st: State, req: Request, role: string)
    requires req.SetRoles?
  {
    (role in req.form) != Holds(st, req.target, role) ==> req.fates(role) == Works
  }

  lemma RolesReported(st: State, req: Request)
    requires req.SetRoles?
    ensures Replace(st.authz, req.target, RolesOf(st.authz, req.target), Requested(req.form), AVAILABLE, req.fates).1
            == Done
       <==> Settles(st, req, ADMIN) && Settles(st, req, AUTHOR) && Settles(st, req, READER)
  {
    var held := RolesOf(st.authz, req.target);
    ReplaceReports(st.authz, req.target, held, Requested(req.form), AVAILABLE, req.fates);
    forall role ensures role in held <==> Holds(st, req.target, role) {}
    assert AVAILABLE[0] == ADMIN && AVAILABLE[1] == AUTHOR && AVAILABLE[2] == READER;
  }

  /** Nobody else's roles, no grant, no post and no account is touched; a submission that
      succeeds leaves the roles that were ticked and exist. */
  lemma RolesWritten(st: State, req: Request)
    requires Tidy(st) && req.SetRoles? && ValidID(req.target)
    ensures var Result(end, answer) := Serve(st, req);
            && end == st.(authz := end.authz) && end.authz.grants == st.authz.grants
            && (forall a: Z.Assignment :: a.subject != UserRef(req.target) ==>
                  (a in end.authz.assignments <==> a in st.authz.assignments))
            && (answer == Done ==> forall role ::
                  Holds(end, req.target, role) <==> role in req.form && role in {ADMIN, AUTHOR, READER})
  {
    var end, held := Serve(st, req).state, RolesOf(st.authz, req.target);
    AvailableRoles();
    ServeIsTidy(st, req);
    forall role ensures role in held <==> Z.Assignment(UserRef(req.target), role) in st.authz.assignments {}
    ReplaceEffect(st.authz, req.target, held, Requested(req.form), AVAILABLE, req.fates, Z.Assignment("", ""));
    forall a: Z.Assignment | a.subject != UserRef(req.target)
      ensures a in end.authz.assignments <==> a in st.authz.assignments
    {
      ReplaceEffect(st.authz, req.target, held, Requested(req.form), AVAILABLE, req.fates, a);
    }
    if Serve(st, req).answer == Done {
      forall role
        ensures Holds(end, req.target, role) <==> role in req.form && role in {ADMIN, AUTHOR, READER}
      {
        var a := Z.Assignment(UserRef(req.target), role);
        ReplaceEffect(st.authz, req.target, held, Requested(req.form), AVAILABLE, req.fates, a);
        OnlyThree(role);
      }
    }
  }

  lemma OnlyThree(role: string)
    ensures role in AVAILABLE <==> role in {ADMIN, AUTHOR, READER}
  {
    assert AVAILABLE[0] == ADMIN && AVAILABLE[1] == AUTHOR && AVAILABLE[2] == READER;
  }

  /** Who is told what by a role submission and when it succeeds. */
  lemma RoleAnswers(st: State, req: Request)
    requires Tidy(st) && req.SetRoles?
    ensures var Result(end, answer) := Serve(st, req);
            var reached := ValidID(req.target) && IsAdmin(st, req.viewer) && req.check && req.load;
            var known := reached && req.target in st.users;
            var dropsSelf := req.viewer == Some(req.target) && ADMIN !in req.form;
            && (answer == Done
                <==> && known && req.parse && req.list && !dropsSelf
                     && Settles(st, req, ADMIN) && Settles(st, req, AUTHOR) && Settles(st, req, READER))
            && (answer == NotOnYourself <==> known && req.parse && req.list && dropsSelf)
            && (answer == SignInFirst <==> ValidID(req.target) && !SignedIn(st, req.viewer))
            && (answer == Forbidden
                <==> ValidID(req.target) && SignedIn(st, req.viewer) && req.check && !IsAdmin(st, req.viewer))
            && (answer == NotFound <==> !ValidID(req.target) || (reached && req.target !in st.users))
            && (answer == Rejected <==> known && !req.parse)
            && (end != st ==> known && req.parse && req.list && !dropsSelf)
  {
    if ValidID(req.target) {
      RolesReported(st, req);
      ReplaceAnswers(st.authz, req.target, RolesOf(st.authz, req.target), Requested(req.form), AVAILABLE, req.fates);
      assert ADMIN in Requested(req.form) <==> ADMIN in req.form by { OnlyThree(ADMIN); }
      if SignedIn(st, req.viewer) {
        Administrators(st, req.viewer.value, ROLE_ASSIGN, req.target);
        HeldAreListed(st.authz, req.viewer.value, ADMIN);
      }
    }
  }

  lemma HeldAreListed(z: Z.State, user: string, role: string)
    ensures role in RolesOf(z, user) <==> Z.Assignment(UserRef(user), role) in z.assignments
  {
  }

  lemma {:induction false} ReplaceAnswers(z: Z.State, user: string, held: set<string>, requested: set<string>,
                                          roles: seq<string>, fates: string -> Fate)
    ensures Replace(z, user, held, requested, roles, fates).1 in {Done, Failed}
    decreases |roles|
  {
    if roles != [] {
      var role := roles[0];
      var changed := if role in requested then Assign(z, user, role, fates(role))
                     else Revoke(z, user, role, fates(role));
      ReplaceAnswers(z, user, held, requested, roles[1..], fates);
      ReplaceAnswers(changed, user, held, requested, roles[1..], fates);
    }
  }

  // ---------------------------------------------------------------- accounts

  /** Who is told what by an account deletion, when it succeeds, and what it changes. */
  lemma AccountDeletionAnswers(st: State, req: Request)
    requires Tidy(st) && req.DeleteUser?
    ensures var Result(end, answer) := Serve(st, req);
            var reached := ValidID(req.target) && IsAdmin(st, req.viewer) && req.check && req.load;
            var self := req.viewer == Some(req.target);
            && (answer == Done
                <==> reached && req.target in st.users && !self && req.purge == Works && req.delete == Works)
            && (answer == NotOnYourself <==> reached && self)
            && (answer == SignInFirst <==> ValidID(req.target) && !SignedIn(st, req.viewer))
            && (answer == Forbidden
                <==> ValidID(req.target) && SignedIn(st, req.viewer) && req.check && !IsAdmin(st, req.viewer))
            && (answer == NotFound <==> !ValidID(req.target) || (reached && req.target !in st.users))
            && (end != st ==> reached && req.target in st.users && !self)
            && end.posts == st.posts
            && (answer == Done ==>
                  && end.users == st.users - {req.target}
                  && (forall a :: a in end.authz.assignments <==>
                        a in st.authz.assignments && a.subject != UserRef(req.target))
                  && (forall g :: g in end.authz.grants <==>
                        g in st.authz.grants && g.subject != UserRef(req.target)))
  {
    if ValidID(req.target) {
      if SignedIn(st, req.viewer) {
        Administrators(st, req.viewer.value, USER_DELETE, req.target);
      }
      DeletionAnswers(st, req);
      DeletionWrites(st, req);
    }
  }

  lemma DeletionAnswers(st: State, req: Request)
    requires req.DeleteUser?
    ensures var authorized := AuthorizeUser(st, req.viewer, req.target, USER_DELETE, req.check, req.load);
            DoDeleteUser(st, req).answer
            == if authorized != Done then authorized
               else if req.viewer == Some(req.target) then NotOnYourself
               else if req.purge == Works && req.delete == Works then Done else Failed
  {
  }

  lemma DeletionWrites(st: State, req: Request)
    requires req.DeleteUser? && ValidID(req.target)
    ensures var Result(end, answer) := DoDeleteUser(st, req);
            && (AuthorizeUser(st, req.viewer, req.target, USER_DELETE, req.check, req.load) != Done ==> end == st)
            && (req.viewer == Some(req.target) ==> end == st)
            && end.posts == st.posts
            && (answer == Done ==> end == WithoutUser(WithoutRows(st, req.target), req.target))
  {
    MintedRefs(req.target);
  }

  /** Setup succeeds exactly on an empty site with every call working, one of two attempts at the
      role being enough, and then its account is the only one and the administrator. When it
      fails and its rollback works nobody is left, unless the insert was reported wrongly. */
  lemma SetupAnswers(st: State, req: Request)
    requires Tidy(st) && req.CompleteSetup? && DrawsFresh(st, req)
    ensures var Result(end, answer) := Serve(st, req);
            && (answer == Done
                <==> && req.count && st.users == {} && req.valid && req.insert == Works && req.recount
                     && (req.hook == Works || req.again == Works))
            && (answer == SetupClosed <==> req.count && st.users != {})
            && (answer == Rejected <==> req.count && st.users == {} && !req.valid)
            && (answer == Done ==> end.users == {req.id} && Holds(end, req.id, ADMIN))
            && (answer != Done && req.rollback.Lands() && req.insert != WorksUnreported ==> end.users == st.users)
            && end.posts == st.posts && end.authz.grants == st.authz.grants
            && (forall a :: a in end.authz.assignments ==> a in st.authz.assignments || a.subject == UserRef(req.id))
  {
    if st.users == {} {
      EmptySetup(st, req);
    } else {
      var user :| user in st.users;
      assert |st.users - {user}| < |st.users|;
    }
    SetupWrites(st, req);
  }

  lemma EmptySetup(st: State, req: Request)
    requires req.CompleteSetup? && ValidID(req.id) && st.users == {}
    ensures var Result(end, answer) := DoCompleteSetup(st, req);
            && answer == (if !req.count then Failed
                          else if !req.valid then Rejected
                          else if req.insert == Works && req.recount && (req.hook == Works || req.again == Works)
                          then Done else Failed)
            && (answer == Done ==> end.users == {req.id} && Holds(end, req.id, ADMIN))
            && (answer != Done && req.rollback.Lands() && req.insert != WorksUnreported ==> end.users == {})
  {
    MintedRefs(req.id);
    assert st.users + {req.id} == {req.id} && {req.id} - {req.id} == {};
  }

  lemma SetupWrites(st: State, req: Request)
    requires req.CompleteSetup?
    ensures var end := DoCompleteSetup(st, req).state;
            && end.posts == st.posts && end.authz.grants == st.authz.grants
            && (forall a :: a in end.authz.assignments ==> a in st.authz.assignments || a.subject == UserRef(req.id))
            && (|st.users| != 0 ==> end == st)
  {
  }

  lemma SignUpAnswers(st: State, id: string, valid: bool, insert: Fate)
    ensures var Result(end, answer) := Serve(st, SignUp(id, valid, insert));
            && (answer == Done <==> valid && insert == Works) && (answer == Rejected <==> !valid)
            && end.users == (if valid && insert.Lands() then st.users + {id} else st.users)
            && end.posts == st.posts && end.authz == st.authz
  {
  }
}
