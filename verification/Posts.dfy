/** Posts and the grants over them, while handlers interleave call by call. */
module Posts {
  import opened Calls
  import opened Refs
  import Z = Authz
  import S = Site

  const GRANT_ATTEMPTS: nat := 2

  datatype Post = Post(author: string, text: string)

  /** Where a handler is, past its permission check. A deletion loads its post first. */
  datatype Phase =
    | Creating(author: string)
    | Granting(author: string, post: string, attempts: nat)
    | Loading(post: string)
    | Purging(post: string)
    | Deleting(post: string)
    | Finished

  /** `authors` remembers whom each drawn post id was drawn for. The late collections hold the calls
      that were given up on and may still take effect, each of them once. */
  datatype State = State(posts: map<string, Post>, authors: map<string, string>, authz: Z.State,
                         lateOps: multiset<Z.Op>, lateInserts: map<string, Post>, lateDeletes: multiset<string>,
                         phases: map<nat, Phase>)

  datatype Step =
    | Insert(h: nat, id: string, text: string, fate: Fate, late: bool)
    | Grant(h: nat, fate: Fate, late: bool)
    | Load(h: nat, ok: bool)
    | PurgePost(h: nat, fate: Fate, late: bool)
    | Delete(h: nat, fate: Fate, late: bool)
    | Save(post: string, text: string)
    | PurgeUser(user: string, fate: Fate, late: bool)
    | ChangeRole(op: Z.Op)
    | LandOp(op: Z.Op)
    | LandInsert(id: string)
    | LandDelete(id: string)

  predicate Enabled(c: State, step: Step) {
    match step
    case Insert(h, id, _, _, _) => h in c.phases && c.phases[h].Creating? && ValidID(id) && id !in c.authors
    case Grant(h, _, _) => h in c.phases && c.phases[h].Granting?
    case Load(h, _) => h in c.phases && c.phases[h].Loading?
    case PurgePost(h, _, _) => h in c.phases && c.phases[h].Purging?
    case Delete(h, _, _) => h in c.phases && c.phases[h].Deleting?
    case Save(post, _) => post in c.posts
    case PurgeUser(_, _, _) => true
    case ChangeRole(op) => op.AssignRole? || op.RevokeRole?
    case LandOp(op) => op in c.lateOps
    case LandInsert(id) => id in c.lateInserts
    case LandDelete(id) => id in c.lateDeletes
  }

  function Enter(c: State, h: nat, phase: Phase): State { c.(phases := c.phases[h := phase]) }

  function GrantOf(author: string, post: string, fate: Fate): Z.Op {
    Z.GrantActions(UserRef(author), S.OWNERSHIP, PostRef(post), fate)
  }

  /** A call to the authorization service that fails may be late rather than lost. */
  function Call(c: State, op: Z.Op, late: bool): State {
    if op.fate == Fails && late then c.(lateOps := c.lateOps + multiset{op.(fate := Works)})
    else c.(authz := Z.After(S.SEEDED, c.authz, op))
  }

  function Take(c: State, step: Step): State
    requires Enabled(c, step)
  {
    match step
    case Insert(h, id, text, fate, late) =>
      var author := c.phases[h].author;
      var drawn := c.(authors := c.authors[id := author]);
      var post := Post(author, text);
      var stored := if fate.Lands() then drawn.(posts := drawn.posts[id := post])
                    else if late then drawn.(lateInserts := drawn.lateInserts[id := post]) else drawn;
      Enter(stored, h, if fate == Works then Granting(author, id, 0) else Finished)
    case Grant(h, fate, late) =>
      var Granting(author, post, attempts) := c.phases[h];
      Enter(Call(c, GrantOf(author, post, fate), late), h,
            if fate == Works || attempts + 1 >= GRANT_ATTEMPTS then Finished else Granting(author, post, attempts + 1))
    case Load(h, ok) =>
      var post := c.phases[h].post;
      Enter(c, h, if ok && post in c.posts then Purging(post) else Finished)
    case PurgePost(h, fate, late) =>
      var post := c.phases[h].post;
      Enter(Call(c, Z.PurgeResource(PostRef(post), fate), late), h, if fate == Works then Deleting(post) else Finished)
    case Delete(h, fate, late) =>
      var post := c.phases[h].post;
      Enter(if fate.Lands() then c.(posts := c.posts - {post})
            else if late then c.(lateDeletes := c.lateDeletes + multiset{post}) else c, h, Finished)
    case Save(post, text) => c.(posts := c.posts[post := c.posts[post].(text := text)])
    case PurgeUser(user, fate, late) => Call(c, Z.PurgeSubject(UserRef(user), fate), late)
    case ChangeRole(op) => c.(authz := Z.After(S.SEEDED, c.authz, op))
    case LandOp(op) => c.(authz := Z.After(S.SEEDED, c.authz, op), lateOps := c.lateOps - multiset{op})
    case LandInsert(id) => c.(posts := c.posts[id := c.lateInserts[id]], lateInserts := c.lateInserts - {id})
    case LandDelete(id) => c.(posts := c.posts - {id}, lateDeletes := c.lateDeletes - multiset{id})
  }

  predicate Run(c: State, steps: seq<Step>, end: State)
    decreases |steps|
  {
    if steps == [] then c == end
    else Enabled(c, steps[0]) && Run(Take(c, steps[0]), steps[1..], end)
  }

  /** Handlers are about to create or to delete; nothing is stored yet. */
  predicate Initial(c: State) {
    && c.posts == map[] && c.authors == map[] && c.authz == Z.State({}, {})
    && c.lateOps == multiset{} && c.lateInserts == map[] && c.lateDeletes == multiset{}
    && forall h :: h in c.phases ==>
         (c.phases[h].Creating? && ValidID(c.phases[h].author)) || c.phases[h].Loading?
  }

  // ---------------------------------------------------------------- ownership

  predicate Owns(authors: map<string, string>, g: Z.Grant, post: string) {
    post in authors && g.resource == PostRef(post) && g.subject == UserRef(authors[post]) && g.action in S.OWNERSHIP
  }

  function OwnerRow(author: string, action: string, post: string): Z.Grant {
    Z.Grant(UserRef(author), action, PostRef(post))
  }

  /** All four ownership actions, or none. */
  ghost predicate AllOrNone(z: Z.State, author: string, post: string) {
    forall a, b :: a in S.OWNERSHIP && b in S.OWNERSHIP && OwnerRow(author, a, post) in z.grants ==>
      OwnerRow(author, b, post) in z.grants
  }

  ghost predicate Rows(z: Z.State, authors: map<string, string>) {
    && (forall g :: g in z.grants ==> exists post :: Owns(authors, g, post))
    && (forall post :: post in authors ==> AllOrNone(z, authors[post], post))
  }

  /** A grant call is for a drawn post and its author, and asks for all of ownership. */
  ghost predicate Proper(op: Z.Op, authors: map<string, string>) {
    op.GrantActions? ==> exists post :: IsGrantOf(op, authors, post)
  }

  predicate IsGrantOf(op: Z.Op, authors: map<string, string>, post: string) {
    post in authors && op == GrantOf(authors[post], post, op.fate)
  }

  ghost predicate Owned(c: State) {
    && Rows(c.authz, c.authors)
    && (forall op :: op in c.lateOps ==> Proper(op, c.authors))
    && (forall id :: id in c.posts ==> id in c.authors && c.posts[id].author == c.authors[id])
    && (forall id :: id in c.lateInserts ==> id in c.authors && c.lateInserts[id].author == c.authors[id])
    && (forall h :: h in c.phases && c.phases[h].Granting? ==>
          c.phases[h].post in c.authors && c.authors[c.phases[h].post] == c.phases[h].author)
  }

  lemma GrantKeepsRows(z: Z.State, authors: map<string, string>, post: string, fate: Fate)
    requires Rows(z, authors) && post in authors
    ensures Rows(Z.After(S.SEEDED, z, GrantOf(authors[post], post, fate)), authors)
  {
    var z' := Z.After(S.SEEDED, z, GrantOf(authors[post], post, fate));
    if z' != z {
      forall g | g in z'.grants ensures exists p :: Owns(authors, g, p) {
        if g !in z.grants {
          assert Owns(authors, g, post);
        }
      }
      forall p | p in authors ensures AllOrNone(z', authors[p], p) {
        RefsDiffer(p, post);
        assert AllOrNone(z, authors[p], p);
      }
    }
  }

  lemma PurgeKeepsRows(z: Z.State, authors: map<string, string>, op: Z.Op)
    requires Rows(z, authors) && !op.GrantActions?
    ensures Rows(Z.After(S.SEEDED, z, op), authors)
  {
  }

  lemma OpKeepsRows(z: Z.State, authors: map<string, string>, op: Z.Op)
    requires Rows(z, authors) && Proper(op, authors)
    ensures Rows(Z.After(S.SEEDED, z, op), authors)
  {
    if op.GrantActions? {
      var post :| IsGrantOf(op, authors, post);
      GrantKeepsRows(z, authors, post, op.fate);
    } else {
      PurgeKeepsRows(z, authors, op);
    }
  }

  /** Drawing one more id changes nothing about the others. */
  lemma DrawKeepsOwned(c: State, id: string, author: string)
    requires Owned(c) && id !in c.authors
    ensures Owned(c.(authors := c.authors[id := author]))
  {
    var authors := c.authors[id := author];
    forall g | g in c.authz.grants ensures (exists post :: Owns(authors, g, post)) && g.resource != PostRef(id) {
      var post :| Owns(c.authors, g, post);
      RefsDiffer(post, id);
      assert Owns(authors, g, post);
    }
    forall op | op in c.lateOps ensures Proper(op, authors) {
      if op.GrantActions? {
        var post :| IsGrantOf(op, c.authors, post);
        assert IsGrantOf(op, authors, post);
      }
    }
    forall post | post in authors ensures AllOrNone(c.authz, authors[post], post) {
      assert post in c.authors ==> AllOrNone(c.authz, c.authors[post], post);
    }
  }

  lemma LateIsProper(op: Z.Op, authors: map<string, string>)
    requires Proper(op, authors)
    ensures Proper(op.(fate := Works), authors)
  {
    if op.GrantActions? {
      var post :| IsGrantOf(op, authors, post);
      assert IsGrantOf(GrantOf(authors[post], post, Works), authors, post);
    }
  }

  lemma CallKeepsOwned(c: State, op: Z.Op, late: bool)
    requires Owned(c) && Proper(op, c.authors)
    ensures Owned(Call(c, op, late))
  {
    if op.fate == Fails && late {
      LateIsProper(op, c.authors);
    } else {
      OpKeepsRows(c.authz, c.authors, op);
    }
  }

  lemma EnterKeepsOwned(c: State, h: nat, phase: Phase)
    requires Owned(c)
    requires phase.Granting? ==> phase.post in c.authors && c.authors[phase.post] == phase.author
    ensures Owned(Enter(c, h, phase))
  {
  }

  lemma InsertKeepsOwned(c: State, step: Step)
    requires Owned(c) && Enabled(c, step) && step.Insert?
    ensures Owned(Take(c, step))
  {
    var author := c.phases[step.h].author;
    var post := Post(author, step.text);
    DrawKeepsOwned(c, step.id, author);
    var drawn := c.(authors := c.authors[step.id := author]);
    var stored := if step.fate.Lands() then drawn.(posts := drawn.posts[step.id := post])
                  else if step.late then drawn.(lateInserts := drawn.lateInserts[step.id := post]) else drawn;
    assert Owned(stored);
    EnterKeepsOwned(stored, step.h, if step.fate == Works then Granting(author, step.id, 0) else Finished);
  }

  lemma GrantKeepsOwned(c: State, step: Step)
    requires Owned(c) && Enabled(c, step) && step.Grant?
    ensures Owned(Take(c, step))
  {
    var Granting(author, post, attempts) := c.phases[step.h];
    assert IsGrantOf(GrantOf(author, post, step.fate), c.authors, post);
    CallKeepsOwned(c, GrantOf(author, post, step.fate), step.late);
    EnterKeepsOwned(Call(c, GrantOf(author, post, step.fate), step.late), step.h, Take(c, step).phases[step.h]);
  }

  lemma PurgeKeepsOwned(c: State, step: Step)
    requires Owned(c) && Enabled(c, step) && step.PurgePost?
    ensures Owned(Take(c, step))
  {
    var op := Z.PurgeResource(PostRef(c.phases[step.h].post), step.fate);
    CallKeepsOwned(c, op, step.late);
    EnterKeepsOwned(Call(c, op, step.late), step.h, Take(c, step).phases[step.h]);
  }

  /** Statements on the table of posts alone. */
  lemma TableKeepsOwned(c: State, posts: map<string, Post>, inserts: map<string, Post>, deletes: multiset<string>)
    requires Owned(c)
    requires forall id :: id in posts ==> id in c.authors && posts[id].author == c.authors[id]
    requires forall id :: id in inserts ==> id in c.authors && inserts[id].author == c.authors[id]
    ensures Owned(c.(posts := posts, lateInserts := inserts, lateDeletes := deletes))
  {
  }

  lemma LoadKeepsOwned(c: State, step: Step)
    requires Owned(c) && Enabled(c, step) && step.Load?
    ensures Owned(Take(c, step))
  {
    EnterKeepsOwned(c, step.h, Take(c, step).phases[step.h]);
  }

  lemma DeleteKeepsOwned(c: State, step: Step)
    requires Owned(c) && Enabled(c, step) && step.Delete?
    ensures Owned(Take(c, step))
  {
    var c' := Take(c, step);
    TableKeepsOwned(c, c'.posts, c'.lateInserts, c'.lateDeletes);
    var stored := c.(posts := c'.posts, lateInserts := c'.lateInserts, lateDeletes := c'.lateDeletes);
    EnterKeepsOwned(stored, step.h, Finished);
  }

  /** An edit, and the statements that land late. */
  lemma TableStepKeepsOwned(c: State, step: Step)
    requires Owned(c) && Enabled(c, step) && (step.Save? || step.LandInsert? || step.LandDelete?)
    ensures Owned(Take(c, step))
  {
    var c' := Take(c, step);
    TableKeepsOwned(c, c'.posts, c'.lateInserts, c'.lateDeletes);
  }

  lemma StepKeepsOwned(c: State, step: Step)
    requires Owned(c) && Enabled(c, step)
    ensures Owned(Take(c, step))
  {
    match step
    case Insert(_, _, _, _, _) => InsertKeepsOwned(c, step);
    case Grant(_, _, _) => GrantKeepsOwned(c, step);
    case PurgePost(_, _, _) => PurgeKeepsOwned(c, step);
    case PurgeUser(user, fate, late) => CallKeepsOwned(c, Z.PurgeSubject(UserRef(user), fate), late);
    case ChangeRole(op) => OpKeepsRows(c.authz, c.authors, op);
    case LandOp(op) => OpKeepsRows(c.authz, c.authors, op);
    case Load(_, _) => LoadKeepsOwned(c, step);
    case Delete(_, _, _) => DeleteKeepsOwned(c, step);
    case _ => TableStepKeepsOwned(c, step);
  }

  lemma {:induction false} RunKeepsOwned(c: State, steps: seq<Step>, end: State)
    requires Owned(c) && Run(c, steps, end)
    ensures Owned(end)
    decreases |steps|
  {
    if steps != [] {
      StepKeepsOwned(c, steps[0]);
      RunKeepsOwned(Take(c, steps[0]), steps[1..], end);
    }
  }

  /** However handlers interleave, and whichever of their calls fail, land unreported or land
      late: all grants over a stored post's reference name the author it was created by, and
      they are all four ownership actions or none. */
  lemma LivePostsAreOwned(c: State, steps: seq<Step>, end: State, post: string)
    requires Initial(c) && Run(c, steps, end) && post in end.posts
    ensures forall g :: g in end.authz.grants && g.resource == PostRef(post) ==>
              g.subject == UserRef(end.posts[post].author) && g.action in S.OWNERSHIP
    ensures AllOrNone(end.authz, end.posts[post].author, post)
  {
    RunKeepsOwned(c, steps, end);
    forall g | g in end.authz.grants && g.resource == PostRef(post)
      ensures g.subject == UserRef(end.posts[post].author) && g.action in S.OWNERSHIP
    {
      var p :| Owns(end.authors, g, p);
      RefsDiffer(p, post);
    }
  }

  /** Nothing a handler does changes the author of a stored post. */
  lemma AuthorsNeverChange(c: State, steps: seq<Step>, end: State, post: string)
    requires Owned(c) && Run(c, steps, end) && post in c.posts && post in end.posts
    ensures end.posts[post].author == c.posts[post].author
  {
    RunKeepsOwned(c, steps, end);
    AuthorsGrow(c, steps, end);
  }

  lemma CallDrawsNothing(c: State, op: Z.Op, late: bool)
    ensures Call(c, op, late).authors == c.authors
  {
  }

  lemma OnlyInsertDraws(c: State, step: Step)
    requires Enabled(c, step) && !step.Insert?
    ensures Take(c, step).authors == c.authors
  {
    match step
    case Grant(h, fate, late) => CallDrawsNothing(c, GrantOf(c.phases[h].author, c.phases[h].post, fate), late);
    case PurgePost(h, fate, late) => CallDrawsNothing(c, Z.PurgeResource(PostRef(c.phases[h].post), fate), late);
    case PurgeUser(user, fate, late) => CallDrawsNothing(c, Z.PurgeSubject(UserRef(user), fate), late);
    case _ =>
  }

  lemma StepAuthors(c: State, step: Step)
    requires Enabled(c, step)
    ensures forall id :: id in c.authors ==> id in Take(c, step).authors && Take(c, step).authors[id] == c.authors[id]
    ensures forall id :: id in Take(c, step).authors ==> id in c.authors || (step.Insert? && step.id == id)
  {
    if !step.Insert? {
      OnlyInsertDraws(c, step);
    }
  }

  lemma {:induction false} AuthorsGrow(c: State, steps: seq<Step>, end: State)
    requires Run(c, steps, end)
    ensures forall id :: id in c.authors ==> id in end.authors && end.authors[id] == c.authors[id]
    decreases |steps|
  {
    if steps != [] {
      StepAuthors(c, steps[0]);
      AuthorsGrow(Take(c, steps[0]), steps[1..], end);
    }
  }

  // ---------------------------------------------------------------- what interleaving can leave behind

  predicate GrantsPost(op: Z.Op, post: string) { op.GrantActions? && op.resource == PostRef(post) }

  /** Some handler is still granting this post, or a grant for it may still land. */
  ghost predicate Restless(c: State, post: string) {
    || (exists h :: h in c.phases && c.phases[h].Granting? && c.phases[h].post == post)
    || (exists op :: op in c.lateOps && GrantsPost(op, post))
  }

  /** Nothing grants this post any more, and nothing is granted. */
  ghost predicate Quiet(c: State, post: string) {
    !Restless(c, post) && forall g :: g in c.authz.grants ==> g.resource != PostRef(post)
  }

  /** A purge that opens the way to the deletion of its post finds no grant under way. */
  ghost predicate Calm(c: State, step: Step) {
    step.PurgePost? && step.fate == Works && step.h in c.phases && c.phases[step.h].Purging? ==>
      !Restless(c, c.phases[step.h].post)
  }

  ghost predicate CalmRun(c: State, steps: seq<Step>)
    decreases |steps|
  {
    steps != [] && Enabled(c, steps[0]) ==> Calm(c, steps[0]) && CalmRun(Take(c, steps[0]), steps[1..])
  }

  ghost predicate Orphans(c: State, post: string) {
    post !in c.posts && exists g :: g in c.authz.grants && g.resource == PostRef(post)
  }

  ghost predicate Drawn(c: State) {
    && (forall post :: post in c.authors ==> ValidID(post) && ValidID(c.authors[post]))
    && (forall post :: post in c.posts || post in c.lateInserts || post in c.lateDeletes ==> post in c.authors)
    && (forall h :: h in c.phases && (c.phases[h].Granting? || c.phases[h].Purging? || c.phases[h].Deleting?) ==>
          c.phases[h].post in c.authors)
    && (forall h :: h in c.phases && c.phases[h].Creating? ==> ValidID(c.phases[h].author))
  }

  lemma EnterKeepsDrawn(c: State, h: nat, phase: Phase)
    requires Drawn(c) && !phase.Creating?
    requires phase.Granting? || phase.Purging? || phase.Deleting? ==> phase.post in c.authors
    ensures Drawn(Enter(c, h, phase))
  {
  }

  lemma InsertKeepsDrawn(c: State, step: Step)
    requires Drawn(c) && Enabled(c, step) && step.Insert?
    ensures Drawn(Take(c, step))
  {
    var author := c.phases[step.h].author;
    var drawn := c.(authors := c.authors[step.id := author]);
    var post := Post(author, step.text);
    var stored := if step.fate.Lands() then drawn.(posts := drawn.posts[step.id := post])
                  else if step.late then drawn.(lateInserts := drawn.lateInserts[step.id := post]) else drawn;
    assert Drawn(stored);
    EnterKeepsDrawn(stored, step.h, if step.fate == Works then Granting(author, step.id, 0) else Finished);
  }

  lemma DeleteKeepsDrawn(c: State, step: Step)
    requires Drawn(c) && Enabled(c, step) && step.Delete?
    ensures Drawn(Take(c, step))
  {
    var post := c.phases[step.h].post;
    var deleted := if step.fate.Lands() then c.(posts := c.posts - {post})
                   else if step.late then c.(lateDeletes := c.lateDeletes + multiset{post}) else c;
    assert Drawn(deleted);
    EnterKeepsDrawn(deleted, step.h, Finished);
  }

  /** Calls to the authorization service draw nothing. */
  lemma OpsKeepDrawn(c: State, authz: Z.State, ops: multiset<Z.Op>)
    requires Drawn(c)
    ensures Drawn(c.(authz := authz, lateOps := ops))
  {
  }

  lemma CallKeepsDrawn(c: State, op: Z.Op, late: bool)
    requires Drawn(c)
    ensures Drawn(Call(c, op, late))
  {
    OpsKeepDrawn(c, Call(c, op, late).authz, Call(c, op, late).lateOps);
  }

  lemma GrantKeepsDrawn(c: State, step: Step)
    requires Drawn(c) && Enabled(c, step) && step.Grant?
    ensures Drawn(Take(c, step))
  {
    var op := GrantOf(c.phases[step.h].author, c.phases[step.h].post, step.fate);
    CallKeepsDrawn(c, op, step.late);
    EnterKeepsDrawn(Call(c, op, step.late), step.h, Take(c, step).phases[step.h]);
  }

  lemma PurgeKeepsDrawn(c: State, step: Step)
    requires Drawn(c) && Enabled(c, step) && step.PurgePost?
    ensures Drawn(Take(c, step))
  {
    var op := Z.PurgeResource(PostRef(c.phases[step.h].post), step.fate);
    CallKeepsDrawn(c, op, step.late);
    EnterKeepsDrawn(Call(c, op, step.late), step.h, Take(c, step).phases[step.h]);
  }

  lemma LoadKeepsDrawn(c: State, step: Step)
    requires Drawn(c) && Enabled(c, step) && step.Load?
    ensures Drawn(Take(c, step))
  {
    EnterKeepsDrawn(c, step.h, Take(c, step).phases[step.h]);
  }

  lemma StepKeepsDrawn(c: State, step: Step)
    requires Drawn(c) && Enabled(c, step)
    ensures Drawn(Take(c, step))
  {
    match step
    case Insert(_, _, _, _, _) => InsertKeepsDrawn(c, step);
    case Delete(_, _, _) => DeleteKeepsDrawn(c, step);
    case Grant(_, _, _) => GrantKeepsDrawn(c, step);
    case PurgePost(_, _, _) => PurgeKeepsDrawn(c, step);
    case Load(_, _) => LoadKeepsDrawn(c, step);
    case PurgeUser(user, fate, late) => CallKeepsDrawn(c, Z.PurgeSubject(UserRef(user), fate), late);
    case _ =>
  }

  /** The post is gone, or on its way. */
  ghost predicate Doomed(c: State, post: string) {
    || post !in c.posts || post in c.lateDeletes
    || exists h :: h in c.phases && c.phases[h].Deleting? && c.phases[h].post == post
  }

  ghost predicate DoomedAreQuiet(c: State) {
    forall post :: post in c.authors && Doomed(c, post) ==> Quiet(c, post)
  }

  lemma AfterKeepsQuiet(z: Z.State, op: Z.Op, post: string)
    requires !GrantsPost(op, post) && forall g :: g in z.grants ==> g.resource != PostRef(post)
    ensures forall g :: g in Z.After(S.SEEDED, z, op).grants ==> g.resource != PostRef(post)
  {
  }

  lemma CallKeepsQuiet(c: State, op: Z.Op, late: bool, post: string)
    requires Quiet(c, post) && !GrantsPost(op, post)
    ensures Quiet(Call(c, op, late), post)
  {
    AfterKeepsQuiet(c.authz, op, post);
  }

  lemma EnterKeepsQuiet(c: State, h: nat, phase: Phase, post: string)
    requires Quiet(c, post) && (phase.Granting? ==> phase.post != post)
    ensures Quiet(Enter(c, h, phase), post)
  {
  }

  lemma GrantStepKeepsQuiet(c: State, step: Step, post: string)
    requires Enabled(c, step) && step.Grant? && Quiet(c, post)
    ensures Quiet(Take(c, step), post)
  {
    var Granting(author, granted, _) := c.phases[step.h];
    RefsDiffer(post, granted);
    var op := GrantOf(author, granted, step.fate);
    CallKeepsQuiet(c, op, step.late, post);
    EnterKeepsQuiet(Call(c, op, step.late), step.h, Take(c, step).phases[step.h], post);
  }

  lemma PurgeStepKeepsQuiet(c: State, step: Step, post: string)
    requires Enabled(c, step) && step.PurgePost? && Quiet(c, post)
    ensures Quiet(Take(c, step), post)
  {
    var op := Z.PurgeResource(PostRef(c.phases[step.h].post), step.fate);
    CallKeepsQuiet(c, op, step.late, post);
    EnterKeepsQuiet(Call(c, op, step.late), step.h, Take(c, step).phases[step.h], post);
  }

  lemma TableStepKeepsQuiet(c: State, step: Step, post: string)
    requires Enabled(c, step) && Quiet(c, post)
    requires step.Load? || step.Delete? || step.Save? || step.LandInsert? || step.LandDelete?
    ensures Quiet(Take(c, step), post)
  {
    var c' := Take(c, step);
    assert c'.authz == c.authz && c'.lateOps == c.lateOps;
    assert forall h :: h in c'.phases && c'.phases[h].Granting? ==> h in c.phases && c'.phases[h] == c.phases[h];
  }

  lemma InsertStepKeepsQuiet(c: State, step: Step, post: string)
    requires Enabled(c, step) && step.Insert? && post in c.authors && Quiet(c, post)
    ensures Quiet(Take(c, step), post)
  {
    var c' := Take(c, step);
    EnterKeepsQuiet(c'.(phases := c.phases), step.h, c'.phases[step.h], post);
  }

  /** A drawn post that nothing grants any more stays so, whatever happens. */
  lemma QuietStays(c: State, step: Step, post: string)
    requires Enabled(c, step) && post in c.authors && Quiet(c, post)
    ensures Quiet(Take(c, step), post)
  {
    match step
    case Grant(_, _, _) => GrantStepKeepsQuiet(c, step, post);
    case Insert(_, _, _, _, _) => InsertStepKeepsQuiet(c, step, post);
    case PurgePost(_, _, _) => PurgeStepKeepsQuiet(c, step, post);
    case PurgeUser(user, fate, late) => CallKeepsQuiet(c, Z.PurgeSubject(UserRef(user), fate), late, post);
    case ChangeRole(op) => AfterKeepsQuiet(c.authz, op, post);
    case LandOp(op) => AfterKeepsQuiet(c.authz, op, post);
    case _ => TableStepKeepsQuiet(c, step, post);
  }

  lemma CalmPurgeQuiets(c: State, step: Step)
    requires Drawn(c) && Enabled(c, step) && step.PurgePost? && step.fate == Works && Calm(c, step)
    ensures Quiet(Take(c, step), c.phases[step.h].post)
  {
    MintedRefs(c.phases[step.h].post);
  }

  lemma UndrawnIsUngranted(c: State, id: string)
    requires Owned(c) && Drawn(c) && id !in c.authors
    ensures Quiet(c, id)
  {
    forall g | g in c.authz.grants ensures g.resource != PostRef(id) {
      var post :| Owns(c.authors, g, post);
      RefsDiffer(post, id);
    }
    forall op | op in c.lateOps ensures !GrantsPost(op, id) {
      if op.GrantActions? {
        var post :| IsGrantOf(op, c.authors, post);
        RefsDiffer(post, id);
      }
    }
  }

  /** An inserted post is either stored, and not doomed, or its handler is done. */
  lemma InsertedOrFinished(c: State, step: Step)
    requires Drawn(c) && Enabled(c, step) && step.Insert?
    ensures step.fate == Works ==> !Doomed(Take(c, step), step.id)
    ensures step.fate != Works ==> Take(c, step).phases == c.phases[step.h := Finished]
    ensures Take(c, step).authz == c.authz && Take(c, step).lateOps == c.lateOps
  {
  }

  lemma FreshIsQuiet(c: State, step: Step)
    requires Owned(c) && Drawn(c) && Enabled(c, step) && step.Insert?
    ensures Doomed(Take(c, step), step.id) ==> Quiet(Take(c, step), step.id)
  {
    UndrawnIsUngranted(c, step.id);
    InsertedOrFinished(c, step);
    if step.fate != Works {
      var c' := Take(c, step);
      EnterKeepsQuiet(c, step.h, Finished, step.id);
      SameQuiet(Enter(c, step.h, Finished), c', step.id);
    }
  }

  lemma SameQuiet(a: State, b: State, post: string)
    requires Quiet(a, post) && a.phases == b.phases && a.lateOps == b.lateOps && a.authz == b.authz
    ensures Quiet(b, post)
  {
  }

  lemma EntersDeleting(c: State, step: Step, post: string)
    requires Enabled(c, step) && post in c.authors && post in c.posts && !Doomed(c, post)
    ensures (exists h :: h in Take(c, step).phases && Take(c, step).phases[h] == Deleting(post)) ==>
              step.PurgePost? && step.fate == Works && c.phases[step.h].post == post
  {
    var c' := Take(c, step);
    if h :| h in c'.phases && c'.phases[h] == Deleting(post) {
      assert h in c.phases && c.phases[h] != Deleting(post);
    }
  }

  lemma LeavesTheTable(c: State, step: Step, post: string)
    requires Enabled(c, step) && post in c.authors && !Doomed(c, post)
    ensures post in Take(c, step).posts && post !in Take(c, step).lateDeletes
  {
    if !step.Delete? && !step.LandDelete? {
      OnlyDeletionsTake(c, step);
    }
  }

  lemma OnlyDeletionsTake(c: State, step: Step)
    requires Enabled(c, step) && !step.Delete? && !step.LandDelete?
    ensures c.posts.Keys <= Take(c, step).posts.Keys && Take(c, step).lateDeletes == c.lateDeletes
  {
  }

  lemma NewlyDoomed(c: State, step: Step, post: string)
    requires Enabled(c, step) && post in c.authors && !Doomed(c, post) && Doomed(Take(c, step), post)
    ensures step.PurgePost? && step.fate == Works && c.phases[step.h].post == post
  {
    LeavesTheTable(c, step, post);
    EntersDeleting(c, step, post);
    var h :| h in Take(c, step).phases && Take(c, step).phases[h].Deleting? && Take(c, step).phases[h].post == post;
    assert Take(c, step).phases[h] == Deleting(post);
  }

  lemma DoomedAfterStep(c: State, step: Step, post: string)
    requires Owned(c) && Drawn(c) && DoomedAreQuiet(c) && Enabled(c, step) && Calm(c, step)
    requires post in c.authors && Doomed(Take(c, step), post)
    ensures Quiet(Take(c, step), post)
  {
    if Doomed(c, post) {
      QuietStays(c, step, post);
    } else {
      NewlyDoomed(c, step, post);
      CalmPurgeQuiets(c, step);
    }
  }

  lemma StepKeepsDoomedQuiet(c: State, step: Step)
    requires Owned(c) && Drawn(c) && DoomedAreQuiet(c) && Enabled(c, step) && Calm(c, step)
    ensures DoomedAreQuiet(Take(c, step))
  {
    var c' := Take(c, step);
    forall post | post in c'.authors && Doomed(c', post) ensures Quiet(c', post) {
      if post in c.authors {
        DoomedAfterStep(c, step, post);
      } else {
        StepAuthors(c, step);
        FreshIsQuiet(c, step);
      }
    }
  }

  lemma {:induction false} CalmRunKeeps(c: State, steps: seq<Step>, end: State)
    requires Owned(c) && Drawn(c) && DoomedAreQuiet(c) && Run(c, steps, end) && CalmRun(c, steps)
    ensures Owned(end) && Drawn(end) && DoomedAreQuiet(end)
    decreases |steps|
  {
    if steps != [] {
      StepKeepsOwned(c, steps[0]);
      StepKeepsDrawn(c, steps[0]);
      StepKeepsDoomedQuiet(c, steps[0]);
      CalmRunKeeps(Take(c, steps[0]), steps[1..], end);
    }
  }

  /** Under any interleaving and any failures, a run leaves no grant over an absent post if each
      reported purge of a deletion finds its post's grants settled: no handler is still
      granting it, and no grant for it may still land. */
  lemma CalmRunsOrphanNothing(c: State, steps: seq<Step>, end: State, post: string)
    requires Initial(c) && Run(c, steps, end) && CalmRun(c, steps)
    ensures !Orphans(end, post)
  {
    CalmRunKeeps(c, steps, end);
    DoomedQuietOrphansNothing(end, post);
  }

  lemma DoomedQuietOrphansNothing(c: State, post: string)
    requires Owned(c) && DoomedAreQuiet(c)
    ensures !Orphans(c, post)
  {
    forall g | g in c.authz.grants && g.resource == PostRef(post) ensures post in c.posts {
      var p :| Owns(c.authors, g, p);
      RefsDiffer(p, post);
      assert Doomed(c, post) ==> Quiet(c, post);
    }
  }

  // The condition cannot be weakened: after a reported purge that finds a grant under way, the
  // deletion and that grant, both without a failure, leave an orphan.

  lemma RunTwo(c: State, a: Step, b: Step, end: State)
    requires Enabled(c, a) && Enabled(Take(c, a), b) && Take(Take(c, a), b) == end
    requires !a.PurgePost? && !b.PurgePost?
    ensures Run(c, [a, b], end) && CalmRun(c, [a, b])
  {
    assert [a, b][1..] == [b] && [b][1..] == [];
    assert Run(Take(c, a), [b], end) && CalmRun(Take(c, a), [b]);
  }

  lemma GrantLands(z: Z.State, author: string, post: string)
    requires ValidID(author) && ValidID(post)
    ensures OwnerRow(author, S.POST_DELETE, post) in Z.After(S.SEEDED, z, GrantOf(author, post, Works)).grants
  {
    MintedRefs(author);
    MintedRefs(post);
    S.ActionsAreValid();
    assert S.OWNERSHIP[2] == S.POST_DELETE;
  }

  lemma GrantAfterDeletion(c: State, h: nat, g: nat) returns (rest: seq<Step>, end: State)
    requires Owned(c) && Drawn(c) && h in c.phases && c.phases[h].Deleting?
    requires g in c.phases && c.phases[g].Granting? && c.phases[g].post == c.phases[h].post
    ensures Run(c, rest, end) && CalmRun(c, rest) && Orphans(end, c.phases[h].post)
  {
    var post, author := c.phases[h].post, c.phases[g].author;
    var deletion, grant := Delete(h, Works, false), Grant(g, Works, false);
    end := Take(Take(c, deletion), grant);
    GrantLands(c.authz, author, post);
    RunTwo(c, deletion, grant, end);
    assert OwnerRow(author, S.POST_DELETE, post) in end.authz.grants;
    rest := [deletion, grant];
  }

  lemma LateGrantAfterDeletion(c: State, h: nat, op: Z.Op) returns (rest: seq<Step>, end: State)
    requires Owned(c) && Drawn(c) && h in c.phases && c.phases[h].Deleting?
    requires op in c.lateOps && GrantsPost(op, c.phases[h].post) && op.fate == Works
    ensures Run(c, rest, end) && CalmRun(c, rest) && Orphans(end, c.phases[h].post)
  {
    var post := c.phases[h].post;
    var deletion := Delete(h, Works, false);
    var p :| IsGrantOf(op, c.authors, p);
    RefsDiffer(p, post);
    end := Take(Take(c, deletion), LandOp(op));
    GrantLands(c.authz, c.authors[post], post);
    RunTwo(c, deletion, LandOp(op), end);
    assert OwnerRow(c.authors[post], S.POST_DELETE, post) in end.authz.grants;
    rest := [deletion, LandOp(op)];
  }

  /** Calls land late as they were sent. */
  ghost predicate LateOpsLand(c: State) { forall op :: op in c.lateOps ==> op.fate == Works }

  lemma StepKeepsLateOps(c: State, step: Step)
    requires LateOpsLand(c) && Enabled(c, step)
    ensures LateOpsLand(Take(c, step))
  {
    match step
    case Grant(h, fate, late) => CallKeepsLateOps(c, GrantOf(c.phases[h].author, c.phases[h].post, fate), late);
    case PurgePost(h, fate, late) => CallKeepsLateOps(c, Z.PurgeResource(PostRef(c.phases[h].post), fate), late);
    case PurgeUser(user, fate, late) => CallKeepsLateOps(c, Z.PurgeSubject(UserRef(user), fate), late);
    case _ =>
  }

  lemma CallKeepsLateOps(c: State, op: Z.Op, late: bool)
    requires LateOpsLand(c)
    ensures LateOpsLand(Call(c, op, late))
  {
  }

  lemma {:induction false} ReachableStates(c: State, steps: seq<Step>, end: State)
    requires Owned(c) && Drawn(c) && LateOpsLand(c) && Run(c, steps, end)
    ensures Owned(end) && Drawn(end) && LateOpsLand(end)
    decreases |steps|
  {
    if steps != [] {
      StepKeepsOwned(c, steps[0]);
      StepKeepsDrawn(c, steps[0]);
      StepKeepsLateOps(c, steps[0]);
      ReachableStates(Take(c, steps[0]), steps[1..], end);
    }
  }

  /** The reported purge by this handler. */
  function Purge(h: nat): Step { PurgePost(h, Works, false) }

  lemma RestlessPurgesOrphan(c: State, h: nat) returns (rest: seq<Step>, end: State)
    requires Owned(c) && Drawn(c) && LateOpsLand(c) && h in c.phases && c.phases[h].Purging?
    requires Restless(c, c.phases[h].post)
    ensures Run(Take(c, Purge(h)), rest, end) && CalmRun(Take(c, Purge(h)), rest)
    ensures Orphans(end, c.phases[h].post)
  {
    var post := c.phases[h].post;
    var purged := Take(c, Purge(h));
    StepKeepsOwned(c, Purge(h));
    StepKeepsDrawn(c, Purge(h));
    if g :| g in c.phases && c.phases[g].Granting? && c.phases[g].post == post {
      rest, end := GrantAfterDeletion(purged, h, g);
    } else {
      var op :| op in c.lateOps && GrantsPost(op, post);
      rest, end := LateGrantAfterDeletion(purged, h, op);
    }
  }

  ghost predicate SafeAfter(c: State, post: string) {
    forall rest, end :: Run(c, rest, end) && CalmRun(c, rest) ==> !Orphans(end, post)
  }

  lemma CalmIsSafe(c: State, post: string)
    requires Owned(c) && Drawn(c) && DoomedAreQuiet(c)
    ensures SafeAfter(c, post)
  {
    forall rest, end | Run(c, rest, end) && CalmRun(c, rest) ensures !Orphans(end, post) {
      CalmRunKeeps(c, rest, end);
      DoomedQuietOrphansNothing(end, post);
    }
  }

  lemma RestlessIsUnsafe(c: State, h: nat)
    requires Owned(c) && Drawn(c) && LateOpsLand(c) && h in c.phases && c.phases[h].Purging?
    requires Restless(c, c.phases[h].post)
    ensures !SafeAfter(Take(c, Purge(h)), c.phases[h].post)
  {
    var rest, end := RestlessPurgesOrphan(c, h);
  }

  /** After a calm run, a reported purge is calm if and only if no calm way to go on from it
      orphans a grant over its post. */
  lemma CalmPurgesAreTheSafeOnes(c: State, before: seq<Step>, middle: State, h: nat)
    requires Initial(c) && Run(c, before, middle) && CalmRun(c, before)
    requires h in middle.phases && middle.phases[h].Purging?
    ensures Calm(middle, Purge(h)) <==> SafeAfter(Take(middle, Purge(h)), middle.phases[h].post)
  {
    InitialKeeps(c);
    CalmRunKeeps(c, before, middle);
    ReachableStates(c, before, middle);
    if Calm(middle, Purge(h)) {
      CalmPurgeIsSafe(middle, h);
    } else {
      RestlessIsUnsafe(middle, h);
    }
  }

  lemma InitialKeeps(c: State)
    requires Initial(c)
    ensures Owned(c) && Drawn(c) && LateOpsLand(c) && DoomedAreQuiet(c)
  {
  }

  lemma CalmPurgeIsSafe(c: State, h: nat)
    requires Owned(c) && Drawn(c) && DoomedAreQuiet(c) && h in c.phases && c.phases[h].Purging?
    requires Calm(c, Purge(h))
    ensures SafeAfter(Take(c, Purge(h)), c.phases[h].post)
  {
    StepKeepsOwned(c, Purge(h));
    StepKeepsDrawn(c, Purge(h));
    StepKeepsDoomedQuiet(c, Purge(h));
    CalmIsSafe(Take(c, Purge(h)), c.phases[h].post);
  }

  // Both halves of the condition are needed: each of these states is reachable from the start.

  lemma JoinedSteps(first: seq<Step>, second: seq<Step>)
    requires first != []
    ensures (first + second)[0] == first[0] && (first + second)[1..] == first[1..] + second
  {
  }

  lemma {:induction false} RunJoins(c: State, first: seq<Step>, middle: State, second: seq<Step>, end: State)
    requires Run(c, first, middle) && Run(middle, second, end)
    ensures Run(c, first + second, end)
    decreases |first|
  {
    if first == [] {
      assert first + second == second;
    } else {
      RunJoins(Take(c, first[0]), first[1..], middle, second, end);
      JoinedSteps(first, second);
    }
  }

  lemma RunOne(c: State, step: Step)
    requires Enabled(c, step)
    ensures Run(c, [step], Take(c, step))
  {
    assert [step][1..] == [];
  }

  /** A post loaded for deletion between its insertion and its grant. */
  lemma GrantingAndPurging(c: State, author: string, id: string) returns (steps: seq<Step>, middle: State)
    requires ValidID(author) && ValidID(id) && Initial(c)
    requires c.phases == map[0 := Creating(author), 1 := Loading(id)]
    ensures Run(c, steps, middle) && Restless(middle, id) && middle.lateOps == multiset{}
    ensures middle.phases == map[0 := Granting(author, id, 0), 1 := Purging(id)]
  {
    var insertion, load := Insert(0, id, "", Works, false), Load(1, true);
    var inserted := Take(c, insertion);
    middle := Take(inserted, load);
    RunOne(c, insertion);
    RunOne(inserted, load);
    RunJoins(c, [insertion], inserted, [load], middle);
    assert middle.phases[0] == Granting(author, id, 0);
    steps := [insertion] + [load];
  }

  lemma LoseOneGrant(loaded: State, author: string, id: string) returns (waiting: State)
    requires loaded.phases == map[0 := Granting(author, id, 0), 1 := Purging(id)]
    ensures Run(loaded, [Grant(0, Fails, true)], waiting)
    ensures waiting.phases == map[0 := Granting(author, id, 1), 1 := Purging(id)]
    ensures GrantOf(author, id, Works) in waiting.lateOps
  {
    waiting := Take(loaded, Grant(0, Fails, true));
    RunOne(loaded, Grant(0, Fails, true));
  }

  lemma GrantAgain(waiting: State, author: string, id: string) returns (middle: State)
    requires waiting.phases == map[0 := Granting(author, id, 1), 1 := Purging(id)]
    requires GrantOf(author, id, Works) in waiting.lateOps
    ensures Run(waiting, [Grant(0, Works, false)], middle)
    ensures middle.phases == map[0 := Finished, 1 := Purging(id)]
    ensures Restless(middle, id)
  {
    middle := Take(waiting, Grant(0, Works, false));
    RunOne(waiting, Grant(0, Works, false));
    assert GrantOf(author, id, Works) in middle.lateOps && GrantsPost(GrantOf(author, id, Works), id);
  }

  /** A post whose creator has given up on one grant call and succeeded with the other, while
      the first may still land. */
  lemma SettledButLate(c: State, author: string, id: string) returns (steps: seq<Step>, middle: State)
    requires ValidID(author) && ValidID(id) && Initial(c)
    requires c.phases == map[0 := Creating(author), 1 := Loading(id)]
    ensures Run(c, steps, middle) && Restless(middle, id)
    ensures middle.phases == map[0 := Finished, 1 := Purging(id)]
  {
    var first, loaded := GrantingAndPurging(c, author, id);
    var waiting := LoseOneGrant(loaded, author, id);
    middle := GrantAgain(waiting, author, id);
    var lost, again := [Grant(0, Fails, true)], [Grant(0, Works, false)];
    RunJoins(loaded, lost, waiting, again, middle);
    RunJoins(c, first, loaded, lost + again, middle);
    steps := first + (lost + again);
  }

  /** A post deleted between its insertion and its grant leaves grants over a reference that no
      longer names a post; so does one deleted before a lost grant call lands. */
  lemma InterleavingOrphansGrants(c: State, author: string, id: string, late: bool)
    returns (steps: seq<Step>, end: State)
    requires ValidID(author) && ValidID(id) && Initial(c)
    requires c.phases == map[0 := Creating(author), 1 := Loading(id)]
    ensures Run(c, steps, end) && Orphans(end, id)
  {
    var first, middle;
    if late {
      first, middle := SettledButLate(c, author, id);
    } else {
      first, middle := GrantingAndPurging(c, author, id);
    }
    ReachableStates(c, first, middle);
    var rest, last := RestlessPurgesOrphan(middle, 1);
    end := last;
    RunOne(middle, Purge(1));
    RunJoins(middle, [Purge(1)], Take(middle, Purge(1)), rest, end);
    RunJoins(c, first, middle, [Purge(1)] + rest, end);
    steps := first + ([Purge(1)] + rest);
  }

  // ---------------------------------------------------------------- what a phase is earned by

  /** How many grant calls this handler has made. */
  function GrantCalls(done: seq<Step>, h: nat): nat {
    if done == [] then 0
    else
      var last := done[|done| - 1];
      GrantCalls(done[..|done| - 1], h) + (if last.Grant? && last.h == h then 1 else 0)
  }

  /** What must have been reported to a handler for it to be where it is. */
  ghost predicate Earned(done: seq<Step>, h: nat, phase: Phase) {
    && (phase.Granting? ==> exists text, late :: Insert(h, phase.post, text, Works, late) in done)
    && (phase.Purging? ==> Load(h, true) in done)
    && (phase.Deleting? ==> exists late :: PurgePost(h, Works, late) in done)
    && match phase
       case Granting(_, _, attempts) => GrantCalls(done, h) == attempts && attempts < 2
       case Finished => GrantCalls(done, h) <= 2
       case _ => GrantCalls(done, h) == 0
  }

  lemma OneMoreStep(done: seq<Step>, step: Step, h: nat)
    ensures GrantCalls(done + [step], h) == GrantCalls(done, h) + (if step.Grant? && step.h == h then 1 else 0)
    ensures step in done + [step] && forall x :: x in done ==> x in done + [step]
  {
    assert (done + [step])[..|done|] == done;
  }

  predicate OfHandler(step: Step, h: nat) {
    (step.Insert? || step.Grant? || step.Load? || step.PurgePost? || step.Delete?) && step.h == h
  }

  lemma OthersStayPut(c: State, step: Step, h: nat)
    requires Enabled(c, step) && h in c.phases && !OfHandler(step, h)
    ensures h in Take(c, step).phases && Take(c, step).phases[h] == c.phases[h]
  {
    if step.PurgeUser? {
      CallMovesNobody(c, Z.PurgeSubject(UserRef(step.user), step.fate), step.late);
    } else if step.Grant? {
      CallMovesNobody(c, GrantOf(c.phases[step.h].author, c.phases[step.h].post, step.fate), step.late);
    } else if step.PurgePost? {
      CallMovesNobody(c, Z.PurgeResource(PostRef(c.phases[step.h].post), step.fate), step.late);
    }
  }

  lemma CallMovesNobody(c: State, op: Z.Op, late: bool)
    ensures Call(c, op, late).phases == c.phases
  {
  }

  lemma EarnedStep(c: State, done: seq<Step>, step: Step, h: nat)
    requires Enabled(c, step) && h in c.phases && Earned(done, h, c.phases[h])
    ensures h in Take(c, step).phases && Earned(done + [step], h, Take(c, step).phases[h])
  {
    OneMoreStep(done, step, h);
    if !OfHandler(step, h) {
      OthersStayPut(c, step, h);
    } else {
      OwnStepEarns(c, done, step);
    }
  }

  lemma OwnStepEarns(c: State, done: seq<Step>, step: Step)
    requires Enabled(c, step) && (step.Insert? || step.Grant? || step.Load? || step.PurgePost? || step.Delete?)
    requires Earned(done, step.h, c.phases[step.h])
    ensures step.h in Take(c, step).phases && Earned(done + [step], step.h, Take(c, step).phases[step.h])
  {
    OneMoreStep(done, step, step.h);
  }

  lemma {:induction false} RunEarns(c: State, done: seq<Step>, steps: seq<Step>, end: State, h: nat)
    requires Run(c, steps, end) && h in c.phases && Earned(done, h, c.phases[h])
    ensures h in end.phases && Earned(done + steps, h, end.phases[h])
    decreases |steps|
  {
    if steps == [] {
      assert done + steps == done;
    } else {
      EarnedStep(c, done, steps[0], h);
      RunEarns(Take(c, steps[0]), done + [steps[0]], steps[1..], end, h);
      assert done + [steps[0]] + steps[1..] == done + steps;
    }
  }

  /** However handlers interleave: a handler grants only a post whose insertion it was told of, and
      at most twice; it purges only a post it has loaded, and deletes only one whose purge it was
      told of. */
  lemma PhasesAreEarned(c: State, steps: seq<Step>, end: State, h: nat)
    requires Initial(c) && Run(c, steps, end) && h in c.phases
    ensures h in end.phases && GrantCalls(steps, h) <= 2
    ensures end.phases[h].Granting? ==> exists text, late :: Insert(h, end.phases[h].post, text, Works, late) in steps
    ensures end.phases[h].Purging? ==> Load(h, true) in steps
    ensures end.phases[h].Deleting? ==> exists late :: PurgePost(h, Works, late) in steps
  {
    RunEarns(c, [], steps, end, h);
    assert [] + steps == steps;
  }

  /** The landing did what the call would have done in time, and nothing of it is left to land. */
  ghost predicate Caught(c: State, landed: State, sent: State) {
    && landed.posts == sent.posts && landed.authz == sent.authz
    && landed.lateOps == c.lateOps && landed.lateDeletes == c.lateDeletes && landed.lateInserts == c.lateInserts
  }

  /** The call of this step may land later, when it was given up on, as if it had been made in time. */
  ghost predicate Recovers(c: State, step: Step, landing: Step)
    requires step.Insert? || step.Grant? || step.PurgePost? || step.Delete? || step.PurgeUser?
  {
    && Enabled(c, step) && Enabled(c, step.(fate := Fails))
    && Take(c, step.(fate := Fails)).posts == c.posts && Enabled(Take(c, step.(fate := Fails)), landing)
    && Caught(c, Take(Take(c, step.(fate := Fails)), landing), Take(c, step))
  }

  lemma OneBack<T>(all: multiset<T>, x: T)
    ensures all + multiset{x} - multiset{x} == all && x in all + multiset{x}
  {
  }

  lemma OpLands(c: State, op: Z.Op)
    requires op.fate == Works
    ensures var lost := Call(c, op.(fate := Fails), true);
            lost == c.(lateOps := c.lateOps + multiset{op}) && op in lost.lateOps
    ensures c.lateOps + multiset{op} - multiset{op} == c.lateOps
    ensures Call(c, op, true) == c.(authz := Z.After(S.SEEDED, c.authz, op))
  {
    OneBack(c.lateOps, op);
  }

  lemma GrantLandsAsSent(c: State, h: nat)
    requires h in c.phases && c.phases[h].Granting?
    ensures Recovers(c, Grant(h, Works, true), LandOp(GrantOf(c.phases[h].author, c.phases[h].post, Works)))
  {
    OpLands(c, GrantOf(c.phases[h].author, c.phases[h].post, Works));
  }

  lemma PurgeLandsAsSent(c: State, h: nat)
    requires h in c.phases && c.phases[h].Purging?
    ensures Recovers(c, PurgePost(h, Works, true), LandOp(Z.PurgeResource(PostRef(c.phases[h].post), Works)))
  {
    OpLands(c, Z.PurgeResource(PostRef(c.phases[h].post), Works));
  }

  lemma DeleteLandsAsSent(c: State, h: nat)
    requires h in c.phases && c.phases[h].Deleting?
    ensures Recovers(c, Delete(h, Works, true), LandDelete(c.phases[h].post))
  {
    OneBack(c.lateDeletes, c.phases[h].post);
  }

  lemma InsertLandsAsSent(c: State, h: nat, id: string, text: string)
    requires Enabled(c, Insert(h, id, text, Fails, true)) && id !in c.lateInserts
    ensures Recovers(c, Insert(h, id, text, Works, true), LandInsert(id))
  {
    var post := Post(c.phases[h].author, text);
    assert c.lateInserts[id := post] - {id} == c.lateInserts;
  }

  lemma UserPurgeLandsAsSent(c: State, user: string)
    ensures Recovers(c, PurgeUser(user, Works, true), LandOp(Z.PurgeSubject(UserRef(user), Works)))
  {
    OpLands(c, Z.PurgeSubject(UserRef(user), Works));
  }

  /** A call that was given up on does, when it lands, what it would have done in time. */
  lemma LandsAsSent(c: State, step: Step) returns (landing: Step)
    requires step.Insert? || step.Grant? || step.PurgePost? || step.Delete? || step.PurgeUser?
    requires Drawn(c) && Enabled(c, step) && step.fate == Works && step.late
    ensures landing.LandOp? || landing.LandInsert? || landing.LandDelete?
    ensures Recovers(c, step, landing)
  {
    match step
    case Insert(h, id, text, _, _) =>
      landing := LandInsert(id);
      InsertLandsAsSent(c, h, id, text);
    case Grant(h, _, _) =>
      landing := LandOp(GrantOf(c.phases[h].author, c.phases[h].post, Works));
      GrantLandsAsSent(c, h);
    case PurgePost(h, _, _) =>
      landing := LandOp(Z.PurgeResource(PostRef(c.phases[h].post), Works));
      PurgeLandsAsSent(c, h);
    case Delete(h, _, _) =>
      landing := LandDelete(c.phases[h].post);
      DeleteLandsAsSent(c, h);
    case PurgeUser(user, _, _) =>
      landing := LandOp(Z.PurgeSubject(UserRef(user), Works));
      UserPurgeLandsAsSent(c, user);
  }

  // ---------------------------------------------------------------- the text of a post

  /** The text a post was inserted with, or was last saved with. */
  function LastText(done: seq<Step>, id: string): Option<string> {
    if done == [] then None
    else
      var last := done[|done| - 1];
      if (last.Insert? && last.id == id) || (last.Save? && last.post == id) then Some(last.text)
      else LastText(done[..|done| - 1], id)
  }

  ghost predicate TextsAre(done: seq<Step>, c: State) {
    && (forall id :: id in c.posts ==> id !in c.lateInserts && LastText(done, id) == Some(c.posts[id].text))
    && (forall id :: id in c.lateInserts ==> LastText(done, id) == Some(c.lateInserts[id].text))
  }

  lemma TextAfterStep(done: seq<Step>, step: Step, id: string)
    ensures LastText(done + [step], id)
         == if (step.Insert? && step.id == id) || (step.Save? && step.post == id) then Some(step.text)
            else LastText(done, id)
  {
    assert (done + [step])[..|done|] == done;
  }

  /** The step gives this post its text. */
  predicate Writes(step: Step, id: string) {
    (step.Insert? && step.id == id) || (step.Save? && step.post == id)
  }

  /** A row is one written in this step, one that was there, or one whose insertion has landed. */
  ghost predicate RowsFollow(c: State, step: Step, c': State) {
    && (forall id :: id in c'.posts ==> id !in c'.lateInserts)
    && (forall id :: id in c'.posts && Writes(step, id) ==> c'.posts[id].text == step.text)
    && (forall id :: id in c'.posts && !Writes(step, id) ==>
          || (id in c.posts && c'.posts[id] == c.posts[id])
          || (id in c.lateInserts && c'.posts[id] == c.lateInserts[id]))
    && (forall id :: id in c'.lateInserts && Writes(step, id) ==> c'.lateInserts[id].text == step.text)
    && (forall id :: id in c'.lateInserts && !Writes(step, id) ==>
          id in c.lateInserts && c'.lateInserts[id] == c.lateInserts[id])
  }

  ghost predicate Apart(c: State) { forall id :: id in c.posts ==> id !in c.lateInserts }

  lemma SameTableFollows(c: State, step: Step, c': State)
    requires Apart(c) && !step.Insert? && !step.Save? && c'.posts.Keys <= c.posts.Keys
    requires (forall id :: id in c'.posts ==> c'.posts[id] == c.posts[id]) && c'.lateInserts == c.lateInserts
    ensures RowsFollow(c, step, c')
  {
  }

  lemma InsertFollows(c: State, step: Step)
    requires Drawn(c) && Apart(c) && Enabled(c, step) && step.Insert?
    ensures RowsFollow(c, step, Take(c, step))
  {
    var c', post := Take(c, step), Post(c.phases[step.h].author, step.text);
    assert step.id !in c.posts && step.id !in c.lateInserts;
    assert c'.posts == if step.fate.Lands() then c.posts[step.id := post] else c.posts;
    assert c'.lateInserts == if !step.fate.Lands() && step.late then c.lateInserts[step.id := post] else c.lateInserts;
    TablesFollow(c, step, post, c');
  }

  lemma TablesFollow(c: State, step: Step, post: Post, c': State)
    requires Apart(c) && step.Insert? && step.id !in c.posts && step.id !in c.lateInserts && post.text == step.text
    requires c'.posts == if step.fate.Lands() then c.posts[step.id := post] else c.posts
    requires c'.lateInserts
          == if !step.fate.Lands() && step.late then c.lateInserts[step.id := post] else c.lateInserts
    ensures RowsFollow(c, step, c')
  {
  }

  lemma SaveFollows(c: State, step: Step)
    requires Apart(c) && Enabled(c, step) && (step.Save? || step.LandInsert?)
    ensures RowsFollow(c, step, Take(c, step))
  {
  }

  lemma CallKeepsTable(c: State, op: Z.Op, late: bool)
    ensures Call(c, op, late).posts == c.posts && Call(c, op, late).lateInserts == c.lateInserts
  {
  }

  lemma OthersKeepTable(c: State, step: Step)
    requires Enabled(c, step) && !step.Insert? && !step.Save? && !step.LandInsert?
    ensures Take(c, step).posts.Keys <= c.posts.Keys && Take(c, step).lateInserts == c.lateInserts
    ensures forall id :: id in Take(c, step).posts ==> Take(c, step).posts[id] == c.posts[id]
  {
    if step.Grant? || step.PurgePost? || step.PurgeUser? {
      CallsKeepTable(c, step);
    }
  }

  lemma CallsKeepTable(c: State, step: Step)
    requires Enabled(c, step) && (step.Grant? || step.PurgePost? || step.PurgeUser?)
    ensures Take(c, step).posts == c.posts && Take(c, step).lateInserts == c.lateInserts
  {
    match step
    case Grant(h, fate, late) => CallKeepsTable(c, GrantOf(c.phases[h].author, c.phases[h].post, fate), late);
    case PurgePost(h, fate, late) => CallKeepsTable(c, Z.PurgeResource(PostRef(c.phases[h].post), fate), late);
    case PurgeUser(user, fate, late) => CallKeepsTable(c, Z.PurgeSubject(UserRef(user), fate), late);
  }

  lemma StepFollows(c: State, step: Step)
    requires Drawn(c) && Apart(c) && Enabled(c, step)
    ensures RowsFollow(c, step, Take(c, step))
  {
    if step.Insert? {
      InsertFollows(c, step);
    } else if step.Save? || step.LandInsert? {
      SaveFollows(c, step);
    } else {
      OthersKeepTable(c, step);
      SameTableFollows(c, step, Take(c, step));
    }
  }

  lemma TextsFollow(c: State, done: seq<Step>, step: Step, c': State)
    requires TextsAre(done, c) && RowsFollow(c, step, c')
    ensures TextsAre(done + [step], c')
  {
    forall id ensures LastText(done + [step], id) == if Writes(step, id) then Some(step.text) else LastText(done, id) {
      TextAfterStep(done, step, id);
    }
  }

  lemma StepKeepsTexts(c: State, done: seq<Step>, step: Step)
    requires Drawn(c) && Enabled(c, step) && TextsAre(done, c)
    ensures TextsAre(done + [step], Take(c, step))
  {
    StepFollows(c, step);
    TextsFollow(c, done, step, Take(c, step));
  }

  lemma {:induction false} RunKeepsTexts(c: State, done: seq<Step>, steps: seq<Step>, end: State)
    requires Drawn(c) && Run(c, steps, end) && TextsAre(done, c)
    ensures TextsAre(done + steps, end)
    decreases |steps|
  {
    if steps == [] {
      assert done + steps == done;
    } else {
      StepKeepsTexts(c, done, steps[0]);
      StepKeepsDrawn(c, steps[0]);
      RunKeepsTexts(Take(c, steps[0]), done + [steps[0]], steps[1..], end);
      assert done + [steps[0]] + steps[1..] == done + steps;
    }
  }

  /** Whatever interleaves and however late an insertion lands, a stored post has the text it was
      last given. */
  lemma StoredTextIsLast(c: State, steps: seq<Step>, end: State, id: string)
    requires Initial(c) && Run(c, steps, end) && id in end.posts
    ensures LastText(steps, id) == Some(end.posts[id].text)
  {
    RunKeepsTexts(c, [], steps, end);
    assert [] + steps == steps;
  }

  // ---------------------------------------------------------------- a handler on its own

  /** The same posts by the same authors, and the same rows of the authorization service. */
  ghost predicate Mirrors(c: State, st: S.State) {
    && c.authz == st.authz && c.posts.Keys == st.posts.Keys
    && forall id :: id in c.posts ==> st.posts[id] == UserRef(c.posts[id].author)
  }

  predicate StepsOf(steps: seq<Step>, h: nat) {
    forall i :: 0 <= i < |steps| ==> OfHandler(steps[i], h)
  }

  lemma GrantIsServed(c: State, h: nat, fate: Fate)
    requires h in c.phases && c.phases[h].Granting?
    ensures var Granting(author, post, attempts) := c.phases[h];
            && Take(c, Grant(h, fate, false)).authz == S.GrantOwnership(c.authz, author, post, fate)
            && Take(c, Grant(h, fate, false)).posts == c.posts
            && Take(c, Grant(h, fate, false)).phases
               == c.phases[h := if fate == Works || attempts + 1 >= 2 then Finished
                                else Granting(author, post, attempts + 1)]
  {
  }

  /** One grant, and a second after a reported failure. */
  lemma GrantsAreServed(c: State, h: nat, grant: Fate, again: Fate) returns (steps: seq<Step>, end: State)
    requires h in c.phases && c.phases[h].Granting? && c.phases[h].attempts == 0
    ensures Run(c, steps, end) && StepsOf(steps, h) && end.phases == c.phases[h := Finished] && end.posts == c.posts
    ensures var Granting(author, post, _) := c.phases[h];
            var once := S.GrantOwnership(c.authz, author, post, grant);
            end.authz == if grant == Works then once else S.GrantOwnership(once, author, post, again)
  {
    var first := Grant(h, grant, false);
    var once := Take(c, first);
    GrantIsServed(c, h, grant);
    RunOne(c, first);
    steps, end := [first], once;
    if grant != Works {
      var second := Grant(h, again, false);
      GrantIsServed(once, h, again);
      RunOne(once, second);
      end := Take(once, second);
      RunJoins(c, [first], once, [second], end);
      steps := [first] + [second];
      var Granting(author, post, _) := c.phases[h];
      assert c.phases[h := Granting(author, post, 1)][h := Finished] == c.phases[h := Finished];
    }
  }

  lemma InsertIsServed(c: State, st: S.State, h: nat, id: string, text: string, fate: Fate)
    requires Mirrors(c, st) && h in c.phases && c.phases[h].Creating? && ValidID(id) && id !in c.authors
    ensures var author := c.phases[h].author;
            var c' := Take(c, Insert(h, id, text, fate, false));
            && Mirrors(c', st.(posts := if fate.Lands() then st.posts[id := UserRef(author)] else st.posts))
            && c'.phases == c.phases[h := if fate == Works then Granting(author, id, 0) else Finished]
  {
  }

  /** Past its permission and its form, a creation that nobody disturbs goes as the handler is
      specified, whatever fails in it. */
  lemma CreationIsServed(c: State, st: S.State, h: nat, req: S.Request, text: string)
    returns (steps: seq<Step>, end: State)
    requires Mirrors(c, st) && req.CreatePost? && req.viewer.Some? && ValidID(req.id) && req.id !in c.authors
    requires S.Permit(st, req.viewer, S.POST_CREATE, S.ANY_POST, req.check) == S.Done && req.parse && req.valid
    requires h in c.phases && c.phases[h] == Creating(req.viewer.value)
    ensures Run(c, steps, end) && StepsOf(steps, h) && end.phases == c.phases[h := Finished]
    ensures Mirrors(end, S.Serve(st, req).state)
  {
    var insertion := Insert(h, req.id, text, req.insert, false);
    var inserted := Take(c, insertion);
    InsertIsServed(c, st, h, req.id, text, req.insert);
    RunOne(c, insertion);
    steps, end := [insertion], inserted;
    if req.insert == Works {
      var rest, last := GrantsAreServed(inserted, h, req.grant, req.again);
      RunJoins(c, steps, inserted, rest, last);
      PhaseTwice(c.phases, h, inserted.phases[h], Finished);
      steps, end := steps + rest, last;
    }
  }

  lemma PhaseTwice(phases: map<nat, Phase>, h: nat, a: Phase, b: Phase)
    ensures phases[h := a][h := b] == phases[h := b]
  {
  }

  lemma PurgeIsServed(c: State, h: nat, fate: Fate)
    requires h in c.phases && c.phases[h].Purging?
    ensures var post := c.phases[h].post;
            var c' := Take(c, PurgePost(h, fate, false));
            && c'.authz == Z.After(S.SEEDED, c.authz, Z.PurgeResource(PostRef(post), fate)) && c'.posts == c.posts
            && c'.phases == c.phases[h := if fate == Works then Deleting(post) else Finished]
  {
  }

  lemma DeleteIsServed(c: State, h: nat, fate: Fate)
    requires h in c.phases && c.phases[h].Deleting?
    ensures var c' := Take(c, Delete(h, fate, false));
            && c'.authz == c.authz && c'.phases == c.phases[h := Finished]
            && c'.posts == if fate.Lands() then c.posts - {c.phases[h].post} else c.posts
  {
  }

  lemma PurgeAndDelete(c: State, h: nat, purge: Fate, delete: Fate) returns (steps: seq<Step>, end: State)
    requires h in c.phases && c.phases[h].Purging?
    ensures Run(c, steps, end) && StepsOf(steps, h) && end.phases == c.phases[h := Finished]
    ensures var post := c.phases[h].post;
            && end.authz == Z.After(S.SEEDED, c.authz, Z.PurgeResource(PostRef(post), purge))
            && end.posts == if purge == Works && delete.Lands() then c.posts - {post} else c.posts
  {
    var step := PurgePost(h, purge, false);
    var purged := Take(c, step);
    PurgeIsServed(c, h, purge);
    RunOne(c, step);
    steps, end := [step], purged;
    if purge == Works {
      var deletion := Delete(h, delete, false);
      DeleteIsServed(purged, h, delete);
      RunOne(purged, deletion);
      end := Take(purged, deletion);
      RunJoins(c, [step], purged, [deletion], end);
      PhaseTwice(c.phases, h, purged.phases[h], Finished);
      steps := [step] + [deletion];
    }
  }

  /** And so does a deletion. */
  lemma DeletionIsServed(c: State, st: S.State, h: nat, req: S.Request) returns (steps: seq<Step>, end: State)
    requires Mirrors(c, st) && req.DeletePost? && ValidID(req.id)
    requires S.Permit(st, req.viewer, S.POST_DELETE, PostRef(req.id), req.check) == S.Done
    requires h in c.phases && c.phases[h] == Loading(req.id)
    ensures Run(c, steps, end) && StepsOf(steps, h) && end.phases == c.phases[h := Finished]
    ensures Mirrors(end, S.Serve(st, req).state)
  {
    var load := Load(h, req.load);
    var loaded := Take(c, load);
    RunOne(c, load);
    steps, end := [load], loaded;
    if loaded.phases[h].Purging? {
      var rest, last := PurgeAndDelete(loaded, h, req.purge, req.delete);
      RunJoins(c, [load], loaded, rest, last);
      PhaseTwice(c.phases, h, loaded.phases[h], Finished);
      steps, end := [load] + rest, last;
    }
  }
}
