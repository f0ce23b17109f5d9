/** Administrators' requests that overlap: role submissions and account deletions, interleaved
    call by call, with calls that land after they were given up on. */
module Overlap {
  import opened Calls
  import opened Refs
  import Z = Authz
  import S = Site

  /** A call that writes, and whose request sent it. */
  datatype Call =
    | RoleCall(viewer: string, target: string, role: string, assign: bool)
    | PurgeCall(viewer: string, target: string)
    | DeleteCall(viewer: string, target: string)

  /** Where a request is. A role submission is checked, lists the roles and changes them one by
      one; a deletion is checked, purges and deletes. */
  datatype Phase =
    | Submitted(viewer: string, target: string, form: seq<string>)
    | Authorized(viewer: string, target: string, form: seq<string>)
    | Changing(viewer: string, target: string, held: set<string>, requested: set<string>, next: nat)
    | Asking(viewer: string, target: string)
    | Purging(viewer: string, target: string)
    | Deleting(viewer: string, target: string)
    | Ended

  /** `late` holds the calls that were given up on and may still take effect, once each. */
  datatype State = State(store: S.State, phases: map<nat, Phase>, late: multiset<Call>)

  /** The target is loaded after the permission is checked, so `load` may be the answer of a
      later moment. */
  datatype Step =
    | Authorize(h: nat, check: bool, load: bool)
    | List(h: nat, parse: bool, list: bool)
    | Change(h: nat, fate: Fate, late: bool)
    | Purge(h: nat, fate: Fate, late: bool)
    | Delete(h: nat, fate: Fate, late: bool)
    | Land(call: Call)

  predicate Enabled(c: State, step: Step) {
    match step
    case Authorize(h, _, _) => h in c.phases && (c.phases[h].Submitted? || c.phases[h].Asking?)
    case List(h, _, _) => h in c.phases && c.phases[h].Authorized?
    case Change(h, _, _) => h in c.phases && c.phases[h].Changing? && c.phases[h].next < |S.AVAILABLE|
    case Purge(h, _, _) => h in c.phases && c.phases[h].Purging?
    case Delete(h, _, _) => h in c.phases && c.phases[h].Deleting?
    case Land(call) => call in c.late
  }

  function Enter(c: State, h: nat, phase: Phase): State { c.(phases := c.phases[h := phase]) }

  function Perform(store: S.State, call: Call): S.State {
    match call
    case RoleCall(_, target, role, assign) =>
      store.(authz := if assign then S.Assign(store.authz, target, role, Works)
                      else S.Revoke(store.authz, target, role, Works))
    case PurgeCall(_, target) =>
      store.(authz := Z.After(S.SEEDED, store.authz, Z.PurgeSubject(UserRef(target), Works)))
    case DeleteCall(_, target) => S.WithoutUser(store, target)
  }

  function Send(c: State, call: Call, fate: Fate, late: bool): State {
    if fate.Lands() then c.(store := Perform(c.store, call))
    else if late then c.(late := c.late + multiset{call})
    else c
  }

  /** The call of one turn of the loop: none if the role is held as it is requested. */
  function TurnCall(phase: Phase): Option<Call>
    requires phase.Changing? && phase.next < |S.AVAILABLE|
  {
    var role := S.AVAILABLE[phase.next];
    if (role in phase.requested) == (role in phase.held) then None
    else Some(RoleCall(phase.viewer, phase.target, role, role in phase.requested))
  }

  function AfterCheck(store: S.State, phase: Phase, check: bool, load: bool): Phase
    requires phase.Submitted? || phase.Asking?
  {
    var action := if phase.Submitted? then S.ROLE_ASSIGN else S.USER_DELETE;
    if !ValidID(phase.target) || !load then Ended
    else if S.Permit(store, Some(phase.viewer), action, UserRef(phase.target), check) != S.Done then Ended
    else if phase.Submitted? then Authorized(phase.viewer, phase.target, phase.form)
    else if phase.viewer == phase.target then Ended
    else Purging(phase.viewer, phase.target)
  }

  function AfterList(store: S.State, phase: Phase, parse: bool, list: bool): Phase
    requires phase.Authorized?
  {
    var held, requested := S.RolesOf(store.authz, phase.target), S.Requested(phase.form);
    if !parse || !list then Ended
    else if phase.viewer == phase.target && S.ADMIN !in requested && S.ADMIN in held then Ended
    else Changing(phase.viewer, phase.target, held, requested, 0)
  }

  function Take(c: State, step: Step): State
    requires Enabled(c, step)
  {
    match step
    case Authorize(h, check, load) => Enter(c, h, AfterCheck(c.store, c.phases[h], check, load))
    case List(h, parse, list) => Enter(c, h, AfterList(c.store, c.phases[h], parse, list))
    case Change(h, fate, late) =>
      var phase := c.phases[h];
      var turned := phase.(next := phase.next + 1);
      (match TurnCall(phase)
       case None => Enter(c, h, turned)
       case Some(call) => Enter(Send(c, call, fate, late), h, if fate == Works then turned else Ended))
    case Purge(h, fate, late) =>
      var Purging(viewer, target) := c.phases[h];
      Enter(Send(c, PurgeCall(viewer, target), fate, late), h,
            if fate == Works then Deleting(viewer, target) else Ended)
    case Delete(h, fate, late) =>
      var Deleting(viewer, target) := c.phases[h];
      Enter(Send(c, DeleteCall(viewer, target), fate, late), h, Ended)
    case Land(call) => c.(store := Perform(c.store, call), late := c.late - multiset{call})
  }

  predicate Run(c: State, steps: seq<Step>, end: State)
    decreases |steps|
  {
    if steps == [] then c == end
    else Enabled(c, steps[0]) && Run(Take(c, steps[0]), steps[1..], end)
  }

  predicate Initial(c: State) {
    c.late == multiset{} && forall h :: h in c.phases ==> c.phases[h].Submitted? || c.phases[h].Asking?
  }

  /** The call that a step sends, whatever becomes of it. */
  function Sent(c: State, step: Step): Option<Call>
    requires Enabled(c, step)
  {
    match step
    case Change(h, _, _) => TurnCall(c.phases[h])
    case Purge(h, _, _) => Some(PurgeCall(c.phases[h].viewer, c.phases[h].target))
    case Delete(h, _, _) => Some(DeleteCall(c.phases[h].viewer, c.phases[h].target))
    case _ => None
  }

  /** The call that takes effect in a step. */
  function Performed(c: State, step: Step): Option<Call>
    requires Enabled(c, step)
  {
    match step
    case Land(call) => Some(call)
    case Authorize(_, _, _) => None
    case List(_, _, _) => None
    case _ => if step.fate.Lands() then Sent(c, step) else None
  }

  /** All that a step does to the store. */
  lemma StoreAfter(c: State, step: Step)
    requires Enabled(c, step)
    ensures var c' := Take(c, step);
            c'.store == if Performed(c, step).Some? then Perform(c.store, Performed(c, step).value) else c.store
  {
  }

  /** All that a step may add to the late calls. */
  lemma LateAfter(c: State, step: Step)
    requires Enabled(c, step)
    ensures forall call :: call in Take(c, step).late ==> call in c.late || Sent(c, step) == Some(call)
  {
  }

  /** A call that was given up on does, when it lands, what it would have done in time. */
  lemma LandsAsSent(c: State, h: nat, step: Step)
    requires Enabled(c, step) && step in {Change(h, Works, true), Purge(h, Works, true), Delete(h, Works, true)}
    requires Sent(c, step).Some?
    ensures var call, lost := Sent(c, step).value, Take(c, step.(fate := Fails));
            && lost.store == c.store && Enabled(lost, Land(call))
            && Take(lost, Land(call)).store == Take(c, step).store && Take(lost, Land(call)).late == c.late
  {
  }

  // ---------------------------------------------------------------- single calls

  predicate IsAdministrator(store: S.State, user: string) { user in store.users && S.Holds(store, user, S.ADMIN) }

  lemma AdministeredMeans(store: S.State)
    ensures S.Administered(store) <==> exists user :: IsAdministrator(store, user)
  {
    if id :| id in store.users && S.Holds(store, id, S.ADMIN) {
      assert IsAdministrator(store, id);
    }
  }

  /** The call takes its target's administrator role or account. */
  predicate TakesAdministrator(call: Call) { call.RoleCall? ==> !call.assign && call.role == S.ADMIN }

  predicate Promotes(call: Call) { call.RoleCall? && call.assign && call.role == S.ADMIN }

  lemma PerformExactly(store: S.State, call: Call, user: string)
    requires ValidID(call.target)
    ensures IsAdministrator(store, user) ==>
              (!IsAdministrator(Perform(store, call), user) <==> TakesAdministrator(call) && call.target == user)
    ensures !IsAdministrator(store, user) && IsAdministrator(Perform(store, call), user) ==> Promotes(call)
  {
    RefsDiffer(user, call.target);
    MintedRefs(call.target);
  }

  lemma PerformIsTidy(store: S.State, call: Call)
    requires S.Tidy(store)
    ensures S.Tidy(Perform(store, call))
  {
    match call
    case RoleCall(_, target, role, assign) =>
      if assign {
        S.AssignIsTidy(store, target, role, Works);
      } else {
        S.FewerRowsAreTidy(store, Perform(store, call));
      }
    case _ => S.FewerRowsAreTidy(store, Perform(store, call));
  }

  // ---------------------------------------------------------------- what the guards leave

  predicate SparesViewer(call: Call) {
    ValidID(call.target) && (TakesAdministrator(call) ==> call.viewer != call.target)
  }

  predicate Spares(phase: Phase) {
    match phase
    case Authorized(_, target, _) => ValidID(target)
    case Changing(viewer, target, held, requested, _) =>
      ValidID(target) && (viewer == target ==> S.ADMIN in requested || S.ADMIN !in held)
    case Purging(viewer, target) => ValidID(target) && viewer != target
    case Deleting(viewer, target) => ValidID(target) && viewer != target
    case _ => true
  }

  /** Nobody is about to drop their own role or account. */
  ghost predicate Guarded(c: State) {
    (forall h :: h in c.phases ==> Spares(c.phases[h])) && forall call :: call in c.late ==> SparesViewer(call)
  }

  lemma SentSpares(c: State, step: Step)
    requires Guarded(c) && Enabled(c, step)
    ensures Sent(c, step).Some? ==> SparesViewer(Sent(c, step).value)
    ensures Performed(c, step).Some? ==> SparesViewer(Performed(c, step).value)
  {
  }

  lemma PhaseSpares(c: State, step: Step)
    requires Guarded(c) && Enabled(c, step) && !step.Land?
    ensures Spares(Take(c, step).phases[step.h])
    ensures forall h :: h in Take(c, step).phases && h != step.h ==>
              h in c.phases && Take(c, step).phases[h] == c.phases[h]
  {
    assert Spares(c.phases[step.h]);
  }

  lemma PhasesStayGuarded(c: State, step: Step)
    requires Guarded(c) && Enabled(c, step)
    ensures forall h :: h in Take(c, step).phases ==> Spares(Take(c, step).phases[h])
  {
    if step.Land? {
      assert Take(c, step).phases == c.phases;
    } else {
      PhaseSpares(c, step);
    }
  }

  lemma StepKeepsGuarded(c: State, step: Step)
    requires Guarded(c) && Enabled(c, step)
    ensures Guarded(Take(c, step))
  {
    LateAfter(c, step);
    SentSpares(c, step);
    PhasesStayGuarded(c, step);
  }

  /** No call of a request takes the role or the account of the request's own viewer. */
  lemma ViewerStays(store: S.State, call: Call)
    requires SparesViewer(call) && IsAdministrator(store, call.viewer)
    ensures IsAdministrator(Perform(store, call), call.viewer)
  {
    PerformExactly(store, call, call.viewer);
  }

  // ---------------------------------------------------------------- calls made in time

  /** A call takes effect while its viewer is still a stored administrator. */
  predicate Timely(c: State, step: Step)
    requires Enabled(c, step)
  {
    Performed(c, step).Some? ==> IsAdministrator(c.store, Performed(c, step).value.viewer)
  }

  predicate TimelyRun(c: State, steps: seq<Step>)
    decreases |steps|
  {
    |steps| > 0 && Enabled(c, steps[0]) ==> Timely(c, steps[0]) && TimelyRun(Take(c, steps[0]), steps[1..])
  }

  lemma TimelyStepKeepsOne(c: State, step: Step)
    requires Guarded(c) && Enabled(c, step) && Timely(c, step) && S.Administered(c.store)
    ensures S.Administered(Take(c, step).store)
  {
    StoreAfter(c, step);
    if Performed(c, step).Some? {
      SentSpares(c, step);
      ViewerStays(c.store, Performed(c, step).value);
      AdministeredMeans(Take(c, step).store);
    }
  }

  lemma {:induction false} TimelyRunKeepsOne(c: State, steps: seq<Step>, end: State)
    requires Guarded(c) && S.Administered(c.store) && Run(c, steps, end) && TimelyRun(c, steps)
    ensures S.Administered(end.store)
    decreases |steps|
  {
    if steps != [] {
      StepKeepsGuarded(c, steps[0]);
      TimelyStepKeepsOne(c, steps[0]);
      TimelyRunKeepsOne(Take(c, steps[0]), steps[1..], end);
    }
  }

  /** However requests overlap and calls land late, an administrator remains if every call takes
      effect while its own viewer still is one. */
  lemma TimelyRequestsKeepOne(c: State, steps: seq<Step>, end: State)
    requires Initial(c) && S.Administered(c.store) && Run(c, steps, end) && TimelyRun(c, steps)
    ensures S.Administered(end.store)
  {
    TimelyRunKeepsOne(c, steps, end);
  }

  ghost predicate OnlyAdministrator(store: S.State, user: string) {
    IsAdministrator(store, user) && forall other :: IsAdministrator(store, other) ==> other == user
  }

  /** One step loses the last administrator exactly when a call takes effect in it that takes the
      role or the account of the only one, and then its viewer is an administrator no longer. */
  lemma LastOneLostExactlyWhen(c: State, step: Step)
    requires Guarded(c) && Enabled(c, step) && S.Administered(c.store)
    ensures !S.Administered(Take(c, step).store)
       <==> && Performed(c, step).Some? && TakesAdministrator(Performed(c, step).value)
            && OnlyAdministrator(c.store, Performed(c, step).value.target)
    ensures !S.Administered(Take(c, step).store) ==> !IsAdministrator(c.store, Performed(c, step).value.viewer)
  {
    var c' := Take(c, step);
    StoreAfter(c, step);
    AdministeredMeans(c.store);
    AdministeredMeans(c'.store);
    if Performed(c, step).Some? {
      var call := Performed(c, step).value;
      SentSpares(c, step);
      forall user
        ensures IsAdministrator(c.store, user) ==>
                  (!IsAdministrator(c'.store, user) <==> TakesAdministrator(call) && call.target == user)
        ensures !IsAdministrator(c.store, user) && IsAdministrator(c'.store, user) ==> Promotes(call)
      {
        PerformExactly(c.store, call, user);
      }
    }
  }

  /** Every request in flight, and every late call, is this viewer's. */
  ghost predicate AllBy(c: State, viewer: string) {
    && (forall h :: h in c.phases && !c.phases[h].Ended? ==> c.phases[h].viewer == viewer)
    && (forall call :: call in c.late ==> call.viewer == viewer)
  }

  lemma PhaseBy(c: State, step: Step, viewer: string)
    requires AllBy(c, viewer) && Enabled(c, step) && !step.Land?
    ensures var phase := Take(c, step).phases[step.h]; phase.Ended? || phase.viewer == viewer
    ensures forall h :: h in Take(c, step).phases && h != step.h ==>
              h in c.phases && Take(c, step).phases[h] == c.phases[h]
    ensures Sent(c, step).Some? ==> Sent(c, step).value.viewer == viewer
  {
    assert c.phases[step.h].viewer == viewer;
  }

  lemma PhasesStayBy(c: State, step: Step, viewer: string)
    requires AllBy(c, viewer) && Enabled(c, step)
    ensures forall h :: h in Take(c, step).phases && !Take(c, step).phases[h].Ended? ==>
              Take(c, step).phases[h].viewer == viewer
  {
    if step.Land? {
      assert Take(c, step).phases == c.phases;
    } else {
      PhaseBy(c, step, viewer);
    }
  }

  lemma StepKeepsAllBy(c: State, step: Step, viewer: string)
    requires AllBy(c, viewer) && Enabled(c, step)
    ensures AllBy(Take(c, step), viewer)
    ensures Performed(c, step).Some? ==> Performed(c, step).value.viewer == viewer
  {
    LateAfter(c, step);
    PhasesStayBy(c, step, viewer);
    if !step.Land? {
      PhaseBy(c, step, viewer);
    }
  }

  lemma {:induction false} OwnRequestsSpare(c: State, steps: seq<Step>, end: State, viewer: string)
    requires Guarded(c) && AllBy(c, viewer) && IsAdministrator(c.store, viewer) && Run(c, steps, end)
    ensures IsAdministrator(end.store, viewer)
    decreases |steps|
  {
    if steps != [] {
      var step := steps[0];
      StepKeepsGuarded(c, step);
      StepKeepsAllBy(c, step, viewer);
      StoreAfter(c, step);
      SentSpares(c, step);
      if Performed(c, step).Some? {
        ViewerStays(c.store, Performed(c, step).value);
      }
      OwnRequestsSpare(Take(c, step), steps[1..], end, viewer);
    }
  }

  /** Requests of one administrator may overlap and land late as they like: that administrator
      remains. */
  lemma OneViewerRemains(c: State, steps: seq<Step>, end: State, viewer: string)
    requires Initial(c) && AllBy(c, viewer) && IsAdministrator(c.store, viewer) && Run(c, steps, end)
    ensures IsAdministrator(end.store, viewer)
  {
    OwnRequestsSpare(c, steps, end, viewer);
  }

  // ---------------------------------------------------------------- threats

  /** The request may still make somebody an administrator. */
  predicate MayPromote(phase: Phase) {
    match phase
    case Submitted(_, _, form) => S.ADMIN in S.Requested(form)
    case Authorized(_, _, form) => S.ADMIN in S.Requested(form)
    case Changing(_, _, held, requested, next) => next == 0 && S.ADMIN in requested && S.ADMIN !in held
    case _ => false
  }

  ghost predicate PromotionPending(c: State) {
    || (exists h :: h in c.phases && MayPromote(c.phases[h]))
    || (exists call :: call in c.late && Promotes(call))
  }

  /** The check can still be passed: its viewer is an administrator, or may become one. */
  ghost predicate MayBePermitted(c: State, viewer: string) { IsAdministrator(c.store, viewer) || PromotionPending(c) }

  /** The request is on its way to taking this user's administrator role or account. */
  ghost predicate Threatens(c: State, phase: Phase, user: string) {
    match phase
    case Submitted(viewer, target, form) =>
      target == user && viewer != user && S.ADMIN !in S.Requested(form) && MayBePermitted(c, viewer)
    case Authorized(viewer, target, form) => target == user && viewer != user && S.ADMIN !in S.Requested(form)
    case Asking(viewer, target) => target == user && viewer != user && MayBePermitted(c, viewer)
    case _ => Armed(phase, user)
  }

  /** Only its call is missing. */
  predicate Armed(phase: Phase, user: string) {
    match phase
    case Changing(_, target, held, requested, next) =>
      target == user && next == 0 && S.ADMIN in held && S.ADMIN !in requested
    case Purging(_, target) => target == user
    case Deleting(_, target) => target == user
    case _ => false
  }

  ghost predicate Threatened(c: State, user: string) {
    || (exists h :: h in c.phases && Threatens(c, c.phases[h], user))
    || (exists call :: call in c.late && TakesAdministrator(call) && call.target == user)
  }

  lemma FirstRoleIsAdmin()
    ensures forall i :: 0 <= i < |S.AVAILABLE| ==> (S.AVAILABLE[i] == S.ADMIN <==> i == 0)
  {
    S.AvailableRoles();
  }

  lemma SentPromotes(c: State, step: Step)
    requires Enabled(c, step)
    ensures Sent(c, step).Some? && Promotes(Sent(c, step).value) ==> PromotionPending(c)
    ensures Performed(c, step).Some? && Promotes(Performed(c, step).value) ==> PromotionPending(c)
  {
    FirstRoleIsAdmin();
  }

  lemma PromotersWere(c: State, step: Step, h: nat)
    requires Enabled(c, step) && h in Take(c, step).phases && MayPromote(Take(c, step).phases[h])
    ensures h in c.phases && MayPromote(c.phases[h])
  {
    if step.Land? || h != step.h {
      assert h in c.phases && Take(c, step).phases[h] == c.phases[h];
    }
  }

  lemma PromotionsStayPending(c: State, step: Step)
    requires Enabled(c, step) && PromotionPending(Take(c, step))
    ensures PromotionPending(c)
  {
    var c' := Take(c, step);
    LateAfter(c, step);
    SentPromotes(c, step);
    if h :| h in c'.phases && MayPromote(c'.phases[h]) {
      PromotersWere(c, step, h);
    }
  }

  /** Nobody becomes permitted unexpectedly. */
  lemma PermissionsDoNotGrow(c: State, step: Step, viewer: string)
    requires Guarded(c) && Enabled(c, step) && MayBePermitted(Take(c, step), viewer)
    ensures MayBePermitted(c, viewer)
  {
    StoreAfter(c, step);
    SentSpares(c, step);
    SentPromotes(c, step);
    if PromotionPending(Take(c, step)) {
      PromotionsStayPending(c, step);
    } else if Performed(c, step).Some? {
      PerformExactly(c.store, Performed(c, step).value, viewer);
    }
  }

  lemma CallsOfThreats(c: State, step: Step, user: string)
    requires Guarded(c) && Enabled(c, step) && !Threatened(c, user)
    ensures Sent(c, step).Some? ==> !(TakesAdministrator(Sent(c, step).value) && Sent(c, step).value.target == user)
    ensures Performed(c, step).Some? ==>
              !(TakesAdministrator(Performed(c, step).value) && Performed(c, step).value.target == user)
  {
    FirstRoleIsAdmin();
  }

  lemma PermittedMeans(c: State, viewer: string, action: string, target: string, check: bool)
    requires S.Tidy(c.store) && ValidID(target) && action in {S.ROLE_ASSIGN, S.USER_DELETE}
    requires S.Permit(c.store, Some(viewer), action, UserRef(target), check) == S.Done
    ensures MayBePermitted(c, viewer)
  {
    S.OnlyAdministrators(c.store, viewer, action, target);
  }

  lemma CheckAddsNoThreat(c: State, step: Step, user: string)
    requires S.Tidy(c.store) && Enabled(c, step) && step.Authorize?
    ensures Threatens(Take(c, step), Take(c, step).phases[step.h], user) ==> Threatens(c, c.phases[step.h], user)
  {
    var phase := c.phases[step.h];
    var action := if phase.Submitted? then S.ROLE_ASSIGN else S.USER_DELETE;
    if ValidID(phase.target)
       && S.Permit(c.store, Some(phase.viewer), action, UserRef(phase.target), step.check) == S.Done {
      PermittedMeans(c, phase.viewer, action, phase.target, step.check);
    }
  }

  /** The guard ends a request that would drop its own viewer's role. */
  lemma ListAddsNoThreat(c: State, step: Step, user: string)
    requires Enabled(c, step) && step.List? && IsAdministrator(c.store, user)
    ensures Threatens(Take(c, step), Take(c, step).phases[step.h], user) ==> Threatens(c, c.phases[step.h], user)
  {
  }

  lemma TurnAddsNoThreat(c: State, step: Step, user: string)
    requires Enabled(c, step) && (step.Change? || step.Purge? || step.Delete?)
    ensures Threatens(Take(c, step), Take(c, step).phases[step.h], user) ==> Threatens(c, c.phases[step.h], user)
  {
  }

  lemma NoNewThreat(c: State, step: Step, user: string)
    requires Guarded(c) && S.Tidy(c.store) && Enabled(c, step)
    requires IsAdministrator(c.store, user) && !Threatened(c, user)
    ensures !Threatened(Take(c, step), user)
  {
    var c' := Take(c, step);
    LateAfter(c, step);
    CallsOfThreats(c, step, user);
    forall h | h in c'.phases ensures !Threatens(c', c'.phases[h], user) {
      if step.Land? || h != step.h {
        assert c'.phases[h] == c.phases[h] && !Threatens(c, c.phases[h], user);
        OtherThreatsAlike(c, step, c.phases[h], user);
      } else if step.Authorize? {
        CheckAddsNoThreat(c, step, user);
      } else if step.List? {
        ListAddsNoThreat(c, step, user);
      } else {
        TurnAddsNoThreat(c, step, user);
      }
    }
  }

  lemma OtherThreatsAlike(c: State, step: Step, phase: Phase, user: string)
    requires Guarded(c) && Enabled(c, step)
    ensures Threatens(Take(c, step), phase, user) ==> Threatens(c, phase, user)
  {
    if (phase.Submitted? || phase.Asking?) && MayBePermitted(Take(c, step), phase.viewer) {
      PermissionsDoNotGrow(c, step, phase.viewer);
    }
  }

  lemma UnthreatenedStays(c: State, step: Step, user: string)
    requires Guarded(c) && S.Tidy(c.store) && Enabled(c, step)
    requires IsAdministrator(c.store, user) && !Threatened(c, user)
    ensures Guarded(Take(c, step)) && S.Tidy(Take(c, step).store)
    ensures IsAdministrator(Take(c, step).store, user) && !Threatened(Take(c, step), user)
  {
    StepKeepsGuarded(c, step);
    NoNewThreat(c, step, user);
    StoreAfter(c, step);
    SentSpares(c, step);
    CallsOfThreats(c, step, user);
    if Performed(c, step).Some? {
      PerformExactly(c.store, Performed(c, step).value, user);
      PerformIsTidy(c.store, Performed(c, step).value);
    }
  }

  /** An administrator whom no request in flight and no late call is on its way to removing stays
      one, however things go on. */
  lemma {:induction false} UnthreatenedRemains(c: State, steps: seq<Step>, end: State, user: string)
    requires Guarded(c) && S.Tidy(c.store) && Run(c, steps, end)
    requires IsAdministrator(c.store, user) && !Threatened(c, user)
    ensures IsAdministrator(end.store, user)
    decreases |steps|
  {
    if steps != [] {
      UnthreatenedStays(c, steps[0], user);
      UnthreatenedRemains(Take(c, steps[0]), steps[1..], end, user);
    }
  }

  // ---------------------------------------------------------------- what threats can do

  lemma JoinedSteps(first: seq<Step>, second: seq<Step>)
    requires first != []
    ensures (first + second)[0] == first[0] && (first + second)[1..] == first[1..] + second
  {
  }

  lemma {:induction false} RunJoins(c: State, first: seq<Step>, middle: State, second: seq<Step>, end: State)
    requires Run(c, first, middle) && Run(middle, second, end)
    ensures Run(c, first + second, end)
    decreases |first|
  {
    if first == [] {
      assert first + second == second;
    } else {
      RunJoins(Take(c, first[0]), first[1..], middle, second, end);
      JoinedSteps(first, second);
    }
  }

  lemma RunOne(c: State, step: Step)
    requires Enabled(c, step)
    ensures Run(c, [step], Take(c, step))
  {
    assert [step][1..] == [];
  }

  lemma RunTwo(c: State, a: Step, b: Step)
    requires Enabled(c, a) && Enabled(Take(c, a), b)
    ensures Run(c, [a, b], Take(Take(c, a), b))
  {
    assert [a, b][1..] == [b] && [b][1..] == [];
    assert Run(Take(c, a), [b], Take(Take(c, a), b));
  }

  /** The steps are those of one handler. */
  predicate StepsOf(steps: seq<Step>, h: nat) {
    forall i :: 0 <= i < |steps| ==> !steps[i].Land? && steps[i].h == h
  }

  predicate Waiting(phase: Phase) { phase.Submitted? || phase.Authorized? || phase.Asking? }

  lemma CheckPasses(c: State, h: nat, user: string)
    requires S.Tidy(c.store) && h in c.phases && IsAdministrator(c.store, user)
    requires c.phases[h].Submitted? || c.phases[h].Asking?
    requires c.phases[h].target == user && c.phases[h].viewer != user && IsAdministrator(c.store, c.phases[h].viewer)
    ensures var phase := c.phases[h];
            AfterCheck(c.store, phase, true, true)
            == if phase.Submitted? then Authorized(phase.viewer, user, phase.form) else Purging(phase.viewer, user)
  {
    var phase := c.phases[h];
    var action := if phase.Submitted? then S.ROLE_ASSIGN else S.USER_DELETE;
    S.OnlyAdministrators(c.store, phase.viewer, action, user);
  }

  lemma ListArms(store: S.State, phase: Phase, user: string)
    requires phase.Authorized? && phase.target == user && phase.viewer != user && IsAdministrator(store, user)
    requires S.ADMIN !in S.Requested(phase.form)
    ensures Armed(AfterList(store, phase, true, true), user) && !Waiting(AfterList(store, phase, true, true))
  {
    assert S.ADMIN in S.RolesOf(store.authz, user);
  }

  /** Without promotions pending the viewer of a threat not checked yet is an administrator. */
  lemma ThreatMeans(c: State, phase: Phase, user: string)
    requires !PromotionPending(c) && Waiting(phase) && Threatens(c, phase, user)
    ensures phase.target == user && phase.viewer != user
    ensures phase.Submitted? || phase.Asking? ==> IsAdministrator(c.store, phase.viewer)
    ensures phase.Submitted? || phase.Authorized? ==> S.ADMIN !in S.Requested(phase.form)
  {
  }

  /** A submission gets as far as its first call. */
  lemma ArmSubmitted(c: State, h: nat, user: string) returns (steps: seq<Step>, phase: Phase)
    requires S.Tidy(c.store) && !PromotionPending(c) && IsAdministrator(c.store, user)
    requires h in c.phases && c.phases[h].Submitted? && Threatens(c, c.phases[h], user)
    ensures Run(c, steps, Enter(c, h, phase)) && StepsOf(steps, h)
    ensures phase.Changing? && Armed(phase, user)
  {
    ThreatMeans(c, c.phases[h], user);
    CheckPasses(c, h, user);
    var checked := AfterCheck(c.store, c.phases[h], true, true);
    ListArms(c.store, checked, user);
    phase := AfterList(c.store, checked, true, true);
    steps := CheckAndList(c, h, checked, phase);
  }

  lemma CheckAndList(c: State, h: nat, checked: Phase, phase: Phase) returns (steps: seq<Step>)
    requires h in c.phases && c.phases[h].Submitted? && AfterCheck(c.store, c.phases[h], true, true) == checked
    requires checked.Authorized? && AfterList(c.store, checked, true, true) == phase
    ensures Run(c, steps, Enter(c, h, phase)) && StepsOf(steps, h)
  {
    steps := [Authorize(h, true, true), List(h, true, true)];
    assert Take(c, steps[0]) == Enter(c, h, checked);
    assert Enter(Enter(c, h, checked), h, phase) == Enter(c, h, phase);
    RunTwo(c, steps[0], steps[1]);
  }

  lemma ArmAsking(c: State, h: nat, user: string) returns (steps: seq<Step>, phase: Phase)
    requires S.Tidy(c.store) && !PromotionPending(c) && IsAdministrator(c.store, user)
    requires h in c.phases && c.phases[h].Asking? && Threatens(c, c.phases[h], user)
    ensures Run(c, steps, Enter(c, h, phase)) && Armed(phase, user) && !Waiting(phase)
  {
    ThreatMeans(c, c.phases[h], user);
    CheckPasses(c, h, user);
    phase := AfterCheck(c.store, c.phases[h], true, true);
    steps := [Authorize(h, true, true)];
    RunOne(c, steps[0]);
  }

  lemma ArmAuthorized(c: State, h: nat, user: string) returns (steps: seq<Step>, phase: Phase)
    requires !PromotionPending(c) && IsAdministrator(c.store, user)
    requires h in c.phases && c.phases[h].Authorized? && Threatens(c, c.phases[h], user)
    ensures Run(c, steps, Enter(c, h, phase)) && Armed(phase, user) && !Waiting(phase)
  {
    ThreatMeans(c, c.phases[h], user);
    ListArms(c.store, c.phases[h], user);
    phase := AfterList(c.store, c.phases[h], true, true);
    steps := [List(h, true, true)];
    RunOne(c, steps[0]);
  }

  /** A threatening request gets as far as its call without changing anything. */
  lemma ArmOne(c: State, h: nat, user: string) returns (steps: seq<Step>, phase: Phase)
    requires S.Tidy(c.store) && !PromotionPending(c) && IsAdministrator(c.store, user)
    requires h in c.phases && Waiting(c.phases[h]) && Threatens(c, c.phases[h], user)
    ensures Run(c, steps, Enter(c, h, phase)) && Armed(phase, user) && !Waiting(phase)
  {
    if c.phases[h].Submitted? {
      steps, phase := ArmSubmitted(c, h, user);
    } else if c.phases[h].Asking? {
      steps, phase := ArmAsking(c, h, user);
    } else {
      steps, phase := ArmAuthorized(c, h, user);
    }
  }

  /** Only a call is missing that takes this user's role or account. */
  ghost predicate ArmedAgainst(c: State, user: string) {
    || (exists h :: h in c.phases && Armed(c.phases[h], user))
    || (exists call :: call in c.late && TakesAdministrator(call) && call.target == user)
  }

  ghost predicate AllThreatened(c: State) {
    forall user :: IsAdministrator(c.store, user) ==> Threatened(c, user)
  }

  ghost predicate AllArmed(c: State) {
    forall user :: IsAdministrator(c.store, user) ==> ArmedAgainst(c, user)
  }

  function WaitingOnes(c: State): set<nat> { set h | h in c.phases && Waiting(c.phases[h]) }

  lemma NoPromotionArmed(c: State, h: nat, phase: Phase, user: string)
    requires !PromotionPending(c) && Armed(phase, user)
    ensures !PromotionPending(Enter(c, h, phase))
  {
    var c' := Enter(c, h, phase);
    forall k | k in c'.phases ensures !MayPromote(c'.phases[k]) {
      assert k != h ==> k in c.phases && c'.phases[k] == c.phases[k];
    }
  }

  lemma ThreatsKeptArmed(c: State, h: nat, phase: Phase, user: string)
    requires !PromotionPending(c) && AllThreatened(c) && h in c.phases && Armed(phase, user)
    requires forall other :: Threatens(c, c.phases[h], other) ==> other == user
    ensures AllThreatened(Enter(c, h, phase))
  {
    var c' := Enter(c, h, phase);
    forall other | IsAdministrator(c'.store, other) ensures Threatened(c', other) {
      if k :| k in c.phases && Threatens(c, c.phases[k], other) {
        assert k != h ==> c'.phases[k] == c.phases[k];
        NoPromotionArmed(c, h, phase, user);
        assert Threatens(c', c'.phases[k], other);
      }
    }
  }

  /** Every threatening request can get as far as its call before any is made. */
  lemma {:induction false} ArmAll(c: State) returns (steps: seq<Step>, end: State)
    requires S.Tidy(c.store) && !PromotionPending(c) && AllThreatened(c)
    ensures Run(c, steps, end) && end.store == c.store && AllArmed(end)
    decreases |WaitingOnes(c)|
  {
    if h, user :| h in c.phases && Waiting(c.phases[h]) && IsAdministrator(c.store, user)
                  && Threatens(c, c.phases[h], user) {
      var first, phase := ArmOne(c, h, user);
      var armed := Enter(c, h, phase);
      NoPromotionArmed(c, h, phase, user);
      ThreatsKeptArmed(c, h, phase, user);
      assert h in WaitingOnes(c) && WaitingOnes(armed) <= WaitingOnes(c) - {h};
      Smaller(WaitingOnes(armed), WaitingOnes(c), h);
      var rest, last := ArmAll(armed);
      RunJoins(c, first, armed, rest, last);
      steps, end := first + rest, last;
    } else {
      steps, end := [], c;
    }
  }

  lemma Smaller<T>(small: set<T>, large: set<T>, x: T)
    requires x in large && small <= large - {x}
    ensures |small| < |large|
  {
    var between := large - {x} - small;
    assert large == small + between + {x};
  }

  ghost function Administrators(store: S.State): set<string> {
    set user | user in store.users && IsAdministrator(store, user)
  }

  /** A call that takes an administrator leaves the other ones. */
  lemma OneLess(store: S.State, call: Call)
    requires ValidID(call.target) && TakesAdministrator(call) && IsAdministrator(store, call.target)
    ensures Administrators(Perform(store, call)) == Administrators(store) - {call.target}
  {
    forall user ensures IsAdministrator(Perform(store, call), user)
                   <==> IsAdministrator(store, user) && user != call.target
    {
      PerformExactly(store, call, user);
    }
  }

  /** The armed call of one request or late call is made. */
  lemma FireOne(c: State, user: string) returns (step: Step)
    requires Guarded(c) && ArmedAgainst(c, user) && IsAdministrator(c.store, user)
    ensures Enabled(c, step) && Performed(c, step).Some?
    ensures TakesAdministrator(Performed(c, step).value) && Performed(c, step).value.target == user
    ensures forall other :: other != user && ArmedAgainst(c, other) ==> ArmedAgainst(Take(c, step), other)
  {
    FirstRoleIsAdmin();
    if h :| h in c.phases && Armed(c.phases[h], user) {
      step := if c.phases[h].Changing? then Change(h, Works, false)
              else if c.phases[h].Purging? then Purge(h, Works, false)
              else Delete(h, Works, false);
      FiringSpares(c, h, user, step);
    } else {
      var call :| call in c.late && TakesAdministrator(call) && call.target == user;
      step := Land(call);
      LandingSpares(c, call);
    }
  }

  lemma FiringSpares(c: State, h: nat, user: string, step: Step)
    requires h in c.phases && Armed(c.phases[h], user) && Enabled(c, step)
    requires step in {Change(h, Works, false), Purge(h, Works, false), Delete(h, Works, false)}
    ensures forall other :: other != user && ArmedAgainst(c, other) ==> ArmedAgainst(Take(c, step), other)
  {
    var c' := Take(c, step);
    assert c'.late == c.late;
    forall other | other != user && ArmedAgainst(c, other) ensures ArmedAgainst(c', other) {
      if k :| k in c.phases && Armed(c.phases[k], other) {
        assert k != h && c'.phases[k] == c.phases[k];
      }
    }
  }

  lemma LandingSpares(c: State, call: Call)
    requires call in c.late
    ensures forall other :: other != call.target && ArmedAgainst(c, other) ==> ArmedAgainst(Take(c, Land(call)), other)
  {
    var c' := Take(c, Land(call));
    forall other | other != call.target && ArmedAgainst(c, other) ensures ArmedAgainst(c', other) {
      if k :| k in c.phases && Armed(c.phases[k], other) {
        assert c'.phases[k] == c.phases[k];
      } else {
        var further :| further in c.late && TakesAdministrator(further) && further.target == other;
        assert further in c'.late;
      }
    }
  }

  lemma {:induction false} FireAll(c: State) returns (steps: seq<Step>, end: State)
    requires Guarded(c) && AllArmed(c)
    ensures Run(c, steps, end) && !S.Administered(end.store)
    decreases |Administrators(c.store)|
  {
    AdministeredMeans(c.store);
    if user :| IsAdministrator(c.store, user) {
      var step := FireOne(c, user);
      var next := Take(c, step);
      StoreAfter(c, step);
      SentSpares(c, step);
      StepKeepsGuarded(c, step);
      OneLess(c.store, Performed(c, step).value);
      FewerArmed(c, next, user);
      Smaller(Administrators(next.store), Administrators(c.store), user);
      var rest, last := FireAll(next);
      RunOne(c, step);
      RunJoins(c, [step], next, rest, last);
      steps, end := [step] + rest, last;
    } else {
      steps, end := [], c;
    }
  }

  lemma FewerArmed(c: State, next: State, user: string)
    requires AllArmed(c) && Administrators(next.store) == Administrators(c.store) - {user}
    requires forall other :: other != user && ArmedAgainst(c, other) ==> ArmedAgainst(next, other)
    ensures AllArmed(next)
  {
    forall other | IsAdministrator(next.store, other) ensures ArmedAgainst(next, other) {
      assert other in Administrators(next.store);
    }
  }

  lemma {:induction false} RunKeepsGuarded(c: State, steps: seq<Step>, end: State)
    requires Guarded(c) && Run(c, steps, end)
    ensures Guarded(end)
    decreases |steps|
  {
    if steps != [] {
      StepKeepsGuarded(c, steps[0]);
      RunKeepsGuarded(Take(c, steps[0]), steps[1..], end);
    }
  }

  /** When every administrator is threatened they can all be removed, without a failure. */
  lemma AllThreatenedLoses(c: State) returns (steps: seq<Step>, end: State)
    requires Guarded(c) && S.Tidy(c.store) && !PromotionPending(c) && AllThreatened(c)
    ensures Run(c, steps, end) && !S.Administered(end.store)
  {
    var first, armed := ArmAll(c);
    RunKeepsGuarded(c, first, armed);
    var rest, last := FireAll(armed);
    RunJoins(c, first, armed, rest, last);
    steps, end := first + rest, last;
  }

  ghost predicate Safe(c: State) {
    forall steps, end :: Run(c, steps, end) ==> S.Administered(end.store)
  }

  /** With no promotion pending, every way to go on keeps an administrator if and only if some
      administrator is threatened by no request in flight and no late call. */
  lemma SafeExactlyWhen(c: State)
    requires Guarded(c) && S.Tidy(c.store) && !PromotionPending(c)
    ensures Safe(c) <==> exists user :: IsAdministrator(c.store, user) && !Threatened(c, user)
  {
    if user :| IsAdministrator(c.store, user) && !Threatened(c, user) {
      forall steps, end | Run(c, steps, end) ensures S.Administered(end.store) {
        UnthreatenedRemains(c, steps, end, user);
        AdministeredMeans(end.store);
      }
    } else {
      var steps, end := AllThreatenedLoses(c);
    }
  }

  // ---------------------------------------------------------------- two administrators

  /** Accounts `a` and `b` are the administrators. */
  ghost predicate TwoAdministrators(store: S.State, a: string, b: string) {
    S.Tidy(store) && a != b && Administrators(store) == {a, b}
  }

  /** The site gets there: `a` sets it up, `b` signs up, and `a` makes `b` an administrator too. */
  function Founding(a: string, b: string): seq<S.Request> {
    [S.CompleteSetup(a, true, true, Works, true, Works, Works, Works), S.SignUp(b, true, Works),
     S.CleanRoles(a, b, [S.ADMIN])]
  }

  lemma FoundingSetup(a: string, setUp: S.State)
    requires ValidID(a)
    requires setUp == S.State({a}, {a}, map[], Z.State({Z.Assignment(UserRef(a), S.ADMIN)}, {}))
    ensures S.DrawsFresh(S.EMPTY, Founding(a, a)[0]) && S.Serve(S.EMPTY, Founding(a, a)[0]).state == setUp
  {
    MintedRefs(a);
    S.AvailableRoles();
    assert S.EMPTY.users + {a} == {a} && S.EMPTY.issued + {a} == {a};
  }

  /** A store of two administrators is reached by a setup, a sign-up and a role submission. */
  lemma TwoAdministratorsAreReached(a: string, b: string) returns (store: S.State)
    requires ValidID(a) && ValidID(b) && a != b
    ensures S.Run(S.EMPTY, Founding(a, b), store) && TwoAdministrators(store, a, b)
  {
    var requests := Founding(a, b);
    var setUp := S.State({a}, {a}, map[], Z.State({Z.Assignment(UserRef(a), S.ADMIN)}, {}));
    FoundingSetup(a, setUp);
    var signedUp := S.Serve(setUp, requests[1]).state;
    store := S.Serve(signedUp, requests[2]).state;
    S.RunIsTidy(S.EMPTY, [], S.EMPTY);
    S.ServeIsTidy(S.EMPTY, requests[0]);
    S.ServeIsTidy(setUp, requests[1]);
    S.ServeIsTidy(signedUp, requests[2]);
    S.CleanRolesReplaces(signedUp, a, b, [S.ADMIN]);
    ThreeRequests(S.EMPTY, requests[0], requests[1], requests[2]);
    RefsDiffer(a, b);
    assert S.Requested([S.ADMIN]) == {S.ADMIN} by { assert [S.ADMIN][0] == S.ADMIN && S.AVAILABLE[0] == S.ADMIN; }
    assert store.users == {a, b};
    assert Z.Assignment(UserRef(b), S.ADMIN) in store.authz.assignments;
  }

  lemma ThreeRequests(st: S.State, p: S.Request, q: S.Request, r: S.Request)
    requires S.DrawsFresh(st, p) && S.DrawsFresh(S.Serve(st, p).state, q)
    requires S.DrawsFresh(S.Serve(S.Serve(st, p).state, q).state, r)
    ensures S.Run(st, [p, q, r], S.Serve(S.Serve(S.Serve(st, p).state, q).state, r).state)
  {
    var first := S.Serve(st, p).state;
    var second := S.Serve(first, q).state;
    var third := S.Serve(second, r).state;
    assert [p, q, r][1..] == [q, r] && [q, r][1..] == [r] && [r][1..] == [];
    assert S.Run(third, [], third);
    assert S.Run(second, [r], third);
    assert S.Run(first, [q, r], third);
  }

  /** `a` and `b` each submit a form that drops the other's roles. */
  function Quarrel(a: string, b: string): map<nat, Phase> {
    map[0 := Submitted(a, b, []), 1 := Submitted(b, a, [])]
  }

  lemma QuarrelThreatens(c: State, a: string, b: string)
    requires TwoAdministrators(c.store, a, b) && c.phases == Quarrel(a, b) && c.late == multiset{}
    ensures Initial(c) && Guarded(c) && !PromotionPending(c) && AllThreatened(c)
    ensures IsAdministrator(c.store, a) && IsAdministrator(c.store, b)
    ensures Threatens(c, c.phases[0], b) && Threatens(c, c.phases[1], a)
  {
    assert a in Administrators(c.store) && b in Administrators(c.store);
    assert S.Requested([]) == {};
    forall user | IsAdministrator(c.store, user) ensures Threatened(c, user) {
      assert user in Administrators(c.store);
      assert Threatens(c, c.phases[0], b) && Threatens(c, c.phases[1], a);
    }
  }

  /** Two administrators whose submissions overlap may demote each other without any call
      failing, and nobody is left who could undo it. */
  lemma TwoAdministratorsDemoteEachOther(c: State, a: string, b: string) returns (steps: seq<Step>, end: State)
    requires TwoAdministrators(c.store, a, b) && c.phases == Quarrel(a, b) && c.late == multiset{}
    ensures Initial(c) && S.Administered(c.store) && Run(c, steps, end) && !S.Administered(end.store)
  {
    QuarrelThreatens(c, a, b);
    AdministeredMeans(c.store);
    steps, end := AllThreatenedLoses(c);
  }

  // ---------------------------------------------------------------- handlers one at a time, a call late

  /** The first turn of an armed submission: a call that drops the administrator role. */
  function DemotionBy(phase: Phase): Call
    requires phase.Changing?
  {
    RoleCall(phase.viewer, phase.target, S.ADMIN, false)
  }

  lemma FirstTurn(phase: Phase, user: string)
    requires phase.Changing? && Armed(phase, user)
    ensures phase.next < |S.AVAILABLE| && TurnCall(phase) == Some(DemotionBy(phase))
  {
    FirstRoleIsAdmin();
  }

  /** The handler arms itself, and its call is lost but may still land. */
  lemma LoseDemotion(c: State, h: nat, user: string) returns (steps: seq<Step>, end: State, call: Call)
    requires S.Tidy(c.store) && !PromotionPending(c) && IsAdministrator(c.store, user)
    requires h in c.phases && c.phases[h].Submitted? && Threatens(c, c.phases[h], user)
    ensures Run(c, steps, end) && StepsOf(steps, h)
    ensures end == Enter(c, h, Ended).(late := c.late + multiset{call})
    ensures TakesAdministrator(call) && call.target == user
  {
    var first, phase := ArmSubmitted(c, h, user);
    var armed := Enter(c, h, phase);
    FirstTurn(phase, user);
    call := DemotionBy(phase);
    end := Enter(c, h, Ended).(late := c.late + multiset{call});
    LosingTurn(c, h, phase, call);
    RunJoins(c, first, armed, [Change(h, Fails, true)], end);
    steps := first + [Change(h, Fails, true)];
  }

  lemma LosingTurn(c: State, h: nat, phase: Phase, call: Call)
    requires phase.Changing? && phase.next < |S.AVAILABLE| && TurnCall(phase) == Some(call)
    ensures var end := Enter(c, h, Ended).(late := c.late + multiset{call});
            Run(Enter(c, h, phase), [Change(h, Fails, true)], end)
  {
    assert c.phases[h := phase][h := Ended] == c.phases[h := Ended];
    RunOne(Enter(c, h, phase), Change(h, Fails, true));
  }

  /** The handler arms itself and its call works. */
  lemma Demote(c: State, h: nat, user: string) returns (steps: seq<Step>, end: State)
    requires S.Tidy(c.store) && !PromotionPending(c) && IsAdministrator(c.store, user) && ValidID(user)
    requires h in c.phases && c.phases[h].Submitted? && Threatens(c, c.phases[h], user)
    ensures Run(c, steps, end) && StepsOf(steps, h) && end.late == c.late
    ensures Administrators(end.store) == Administrators(c.store) - {user}
  {
    var first, phase := ArmSubmitted(c, h, user);
    var armed := Enter(c, h, phase);
    FirstTurn(phase, user);
    OneLess(c.store, DemotionBy(phase));
    var turn := Change(h, Works, false);
    end := Take(armed, turn);
    RunOne(armed, turn);
    RunJoins(c, first, armed, [turn], end);
    steps := first + [turn];
  }

  lemma AfterTheLoss(c: State, a: string, b: string, middle: State, call: Call)
    requires TwoAdministrators(c.store, a, b) && c.phases == Quarrel(a, b) && c.late == multiset{}
    requires middle == Enter(c, 0, Ended).(late := multiset{call})
    requires TakesAdministrator(call) && call.target == b
    ensures !PromotionPending(middle) && 1 in middle.phases && middle.phases[1].Submitted?
    ensures Threatens(middle, middle.phases[1], a)
  {
    QuarrelThreatens(c, a, b);
    assert middle.phases[1] == c.phases[1];
  }

  lemma LastGoes(store: S.State, user: string, call: Call)
    requires Administrators(store) == {user} && TakesAdministrator(call) && call.target == user && ValidID(user)
    ensures S.Administered(store) && !S.Administered(Perform(store, call))
  {
    AdministeredMeans(store);
    AdministeredMeans(Perform(store, call));
    assert user in Administrators(store);
    OneLess(store, call);
    forall other ensures !IsAdministrator(Perform(store, call), other) {
      assert other !in Administrators(Perform(store, call));
    }
  }

  /** The first handler loses its call and returns. */
  lemma FirstLoses(c: State, a: string, b: string) returns (first: seq<Step>, middle: State, call: Call)
    requires TwoAdministrators(c.store, a, b) && c.phases == Quarrel(a, b) && c.late == multiset{}
    ensures Run(c, first, middle) && StepsOf(first, 0)
    ensures middle == Enter(c, 0, Ended).(late := multiset{call})
    ensures TakesAdministrator(call) && call.target == b
  {
    QuarrelThreatens(c, a, b);
    first, middle, call := LoseDemotion(c, 0, b);
    assert c.late + multiset{call} == multiset{call};
  }

  /** The second works while the lost call is still out. */
  lemma SecondWorks(middle: State, a: string, b: string) returns (second: seq<Step>, last: State)
    requires TwoAdministrators(middle.store, a, b) && !PromotionPending(middle)
    requires 1 in middle.phases && middle.phases[1].Submitted? && Threatens(middle, middle.phases[1], a)
    ensures Run(middle, second, last) && StepsOf(second, 1) && last.late == middle.late
    ensures Administrators(last.store) == {b}
  {
    QuarrelersAreValid(middle.store, a, b);
    assert a in Administrators(middle.store);
    second, last := Demote(middle, 1, a);
    assert {a, b} - {a} == {b};
  }

  /** Even with handlers one at a time a late call may remove the last administrator: the first
      handler loses its call and returns while both are administrators, the second works, and
      then the lost call lands. */
  lemma LateCallRemovesTheLast(c: State, a: string, b: string)
    returns (first: seq<Step>, middle: State, second: seq<Step>, last: State, call: Call)
    requires TwoAdministrators(c.store, a, b) && c.phases == Quarrel(a, b) && c.late == multiset{}
    ensures Run(c, first, middle) && StepsOf(first, 0)
    ensures middle == Enter(c, 0, Ended).(late := multiset{call})
    ensures Run(middle, second, last) && StepsOf(second, 1) && S.Administered(last.store)
    ensures call in last.late && !S.Administered(Take(last, Land(call)).store)
  {
    first, middle, call := FirstLoses(c, a, b);
    AfterTheLoss(c, a, b, middle, call);
    second, last := SecondWorks(middle, a, b);
    QuarrelersAreValid(c.store, a, b);
    LandingRemoves(last, b, call);
  }

  lemma LandingRemoves(last: State, user: string, call: Call)
    requires Administrators(last.store) == {user} && last.late == multiset{call}
    requires TakesAdministrator(call) && call.target == user && ValidID(user)
    ensures call in last.late && S.Administered(last.store) && !S.Administered(Take(last, Land(call)).store)
  {
    LastGoes(last.store, user, call);
  }

  lemma QuarrelersAreValid(store: S.State, a: string, b: string)
    requires TwoAdministrators(store, a, b)
    ensures ValidID(a) && ValidID(b)
  {
    assert a in Administrators(store) && b in Administrators(store);
  }

  /** Once every request has returned, nothing that may still land loses the last administrator
      if and only if some administrator is not the target of a late demotion, purge or deletion. */
  lemma SafeOnceReturned(c: State)
    requires Guarded(c) && S.Tidy(c.store) && forall h :: h in c.phases ==> c.phases[h].Ended?
    requires forall call :: call in c.late ==> !Promotes(call)
    ensures Safe(c) <==> exists user :: IsAdministrator(c.store, user)
                           && forall call :: call in c.late && TakesAdministrator(call) ==> call.target != user
  {
    SafeExactlyWhen(c);
    forall user
      ensures Threatened(c, user) <==> exists call :: call in c.late && TakesAdministrator(call) && call.target == user
    {
    }
  }

  // ---------------------------------------------------------------- a request on its own

  /** The role calls of a fate take effect exactly when it lands. */
  lemma RoleCallByFate(z: Z.State, user: string, role: string, fate: Fate)
    ensures S.Assign(z, user, role, fate) == if fate.Lands() then S.Assign(z, user, role, Works) else z
    ensures S.Revoke(z, user, role, fate) == if fate.Lands() then S.Revoke(z, user, role, Works) else z
  {
  }

  /** What one turn of the loop leaves, as the handler has it. */
  function Turned(z: Z.State, phase: Phase, fate: Fate): Z.State
    requires phase.Changing? && phase.next < |S.AVAILABLE|
  {
    S.ChangeTo(z, phase.target, phase.held, phase.requested, S.AVAILABLE[phase.next], fate)
  }

  lemma TurnIsServed(c: State, h: nat, fate: Fate)
    requires h in c.phases && c.phases[h].Changing? && c.phases[h].next < |S.AVAILABLE|
    ensures var phase := c.phases[h];
            var stops := TurnCall(phase).Some? && fate != Works;
            Take(c, Change(h, fate, false))
            == Enter(c, h, if stops then Ended else phase.(next := phase.next + 1))
               .(store := c.store.(authz := Turned(c.store.authz, phase, fate)))
  {
    var phase := c.phases[h];
    RoleCallByFate(c.store.authz, phase.target, S.AVAILABLE[phase.next], fate);
  }

  /** Nothing but the store and this request's phase has changed. */
  predicate Alone(c: State, h: nat, end: State) {
    end.late == c.late && h in end.phases && end.phases == c.phases[h := end.phases[h]]
  }

  lemma AloneTwice(c: State, h: nat, middle: State, end: State)
    requires Alone(c, h, middle) && Alone(middle, h, end)
    ensures Alone(c, h, end)
  {
    assert c.phases[h := middle.phases[h]][h := end.phases[h]] == c.phases[h := end.phases[h]];
  }

  lemma StepThenRun(c: State, step: Step, steps: seq<Step>, end: State)
    requires Enabled(c, step) && Run(Take(c, step), steps, end)
    ensures Run(c, [step] + steps, end)
  {
    assert ([step] + steps)[1..] == steps;
  }

  predicate Returned(phase: Phase) {
    phase.Ended? || (phase.Changing? && phase.next == |S.AVAILABLE|)
  }

  lemma {:induction false} TurnsAreServed(c: State, h: nat, fates: string -> Fate)
    returns (steps: seq<Step>, end: State)
    requires h in c.phases && c.phases[h].Changing? && c.phases[h].next <= |S.AVAILABLE|
    ensures Run(c, steps, end) && StepsOf(steps, h) && Alone(c, h, end) && Returned(end.phases[h])
    ensures var phase := c.phases[h];
            var (z, answer) := S.Replace(c.store.authz, phase.target, phase.held, phase.requested,
                                         S.AVAILABLE[phase.next..], fates);
            end.store == c.store.(authz := z) && (answer == S.Done <==> end.phases[h].Changing?)
    decreases |S.AVAILABLE| - c.phases[h].next
  {
    var phase := c.phases[h];
    if phase.next == |S.AVAILABLE| {
      steps, end := [], c;
      assert c.phases[h := phase] == c.phases;
    } else {
      var roles, fate := S.AVAILABLE[phase.next..], fates(S.AVAILABLE[phase.next]);
      var step := Change(h, fate, false);
      var next := Take(c, step);
      TurnIsServed(c, h, fate);
      S.ReplaceUnfolds(c.store.authz, phase.target, phase.held, phase.requested, roles, fates);
      assert roles[0] == S.AVAILABLE[phase.next] && roles[1..] == S.AVAILABLE[phase.next + 1..];
      if next.phases[h].Ended? {
        RunOne(c, step);
        steps, end := [step], next;
      } else {
        var rest, last := TurnsAreServed(next, h, fates);
        StepThenRun(c, step, rest, last);
        AloneTwice(c, h, next, last);
        steps, end := [step] + rest, last;
      }
    }
  }

  /** What the handler's checks decide is where its first two steps lead. */
  lemma ChecksAreServed(c: State, h: nat, req: S.Request) returns (steps: seq<Step>, end: State)
    requires req.SetRoles? && req.viewer.Some?
    requires h in c.phases && c.phases[h] == Submitted(req.viewer.value, req.target, req.form)
    ensures Run(c, steps, end) && StepsOf(steps, h) && Alone(c, h, end) && end.store == c.store
    ensures end.phases[h] == if S.ReachesLoop(c.store, req)
                             then Changing(req.viewer.value, req.target, S.RolesOf(c.store.authz, req.target),
                                           S.Requested(req.form), 0)
                             else Ended
  {
    var check := Authorize(h, req.check, req.load && req.target in c.store.users);
    var checked := Take(c, check);
    RunOne(c, check);
    if checked.phases[h].Ended? {
      steps, end := [check], checked;
    } else {
      var list := List(h, req.parse, req.list);
      end := Take(checked, list);
      RunOne(checked, list);
      StepThenRun(c, check, [list], end);
      AloneTwice(c, h, checked, end);
      steps := [check] + [list];
    }
  }

  lemma ServedAfterChecks(st: S.State, req: S.Request)
    requires req.SetRoles?
    ensures S.Serve(st, req).state
         == if S.ReachesLoop(st, req)
            then st.(authz := S.Replace(st.authz, req.target, S.RolesOf(st.authz, req.target), S.Requested(req.form),
                                        S.AVAILABLE, req.fates).0)
            else st
  {
  }

  /** Left alone, a role submission goes as the handler is specified, whatever fails in it. */
  lemma SubmissionIsServed(c: State, h: nat, req: S.Request) returns (steps: seq<Step>, end: State)
    requires req.SetRoles? && req.viewer.Some?
    requires h in c.phases && c.phases[h] == Submitted(req.viewer.value, req.target, req.form)
    ensures Run(c, steps, end) && StepsOf(steps, h) && Alone(c, h, end) && Returned(end.phases[h])
    ensures end.store == S.Serve(c.store, req).state
  {
    var first, checked := ChecksAreServed(c, h, req);
    ServedAfterChecks(c.store, req);
    if S.ReachesLoop(c.store, req) {
      var rest, last := TurnsAreServed(checked, h, req.fates);
      assert S.AVAILABLE[0..] == S.AVAILABLE;
      RunJoins(c, first, checked, rest, last);
      AloneTwice(c, h, checked, last);
      steps, end := first + rest, last;
    } else {
      steps, end := first, checked;
    }
  }

  lemma PurgeIsServed(c: State, h: nat, fate: Fate)
    requires h in c.phases && c.phases[h].Purging?
    ensures var Purging(viewer, target) := c.phases[h];
            var purged := Z.After(S.SEEDED, c.store.authz, Z.PurgeSubject(UserRef(target), fate));
            Take(c, Purge(h, fate, false))
            == Enter(c, h, if fate == Works then Deleting(viewer, target) else Ended)
               .(store := c.store.(authz := purged))
  {
  }

  lemma DeleteIsServed(c: State, h: nat, fate: Fate)
    requires h in c.phases && c.phases[h].Deleting?
    ensures var target := c.phases[h].target;
            Take(c, Delete(h, fate, false))
            == Enter(c, h, Ended)
               .(store := if fate.Lands() then c.store.(users := c.store.users - {target}) else c.store)
  {
  }

  lemma PurgeAndDelete(c: State, h: nat, purge: Fate, delete: Fate) returns (steps: seq<Step>, end: State)
    requires h in c.phases && c.phases[h].Purging?
    ensures Run(c, steps, end) && StepsOf(steps, h) && Alone(c, h, end) && end.phases[h].Ended?
    ensures var target := c.phases[h].target;
            var purged := c.store.(authz := Z.After(S.SEEDED, c.store.authz, Z.PurgeSubject(UserRef(target), purge)));
            end.store == if purge == Works && delete.Lands() then purged.(users := purged.users - {target}) else purged
  {
    var step := Purge(h, purge, false);
    var purged := Take(c, step);
    PurgeIsServed(c, h, purge);
    RunOne(c, step);
    steps, end := [step], purged;
    if purge == Works {
      var deletion := Delete(h, delete, false);
      DeleteIsServed(purged, h, delete);
      RunOne(purged, deletion);
      end := Take(purged, deletion);
      RunJoins(c, [step], purged, [deletion], end);
      AloneTwice(c, h, purged, end);
      steps := [step] + [deletion];
    }
  }

  lemma DeletionGoes(st: S.State, req: S.Request)
    requires req.DeleteUser? && req.viewer.Some?
    ensures var authorized := S.AuthorizeUser(st, req.viewer, req.target, S.USER_DELETE, req.check, req.load);
            var purged := st.(authz := Z.After(S.SEEDED, st.authz, Z.PurgeSubject(UserRef(req.target), req.purge)));
            S.Serve(st, req).state
            == if authorized != S.Done || req.viewer.value == req.target then st
               else if req.purge == Works && req.delete.Lands() then purged.(users := purged.users - {req.target})
               else purged
  {
  }

  /** And so does a deletion. */
  lemma DeletionIsServed(c: State, h: nat, req: S.Request) returns (steps: seq<Step>, end: State)
    requires req.DeleteUser? && req.viewer.Some?
    requires h in c.phases && c.phases[h] == Asking(req.viewer.value, req.target)
    ensures Run(c, steps, end) && StepsOf(steps, h) && Alone(c, h, end) && Returned(end.phases[h])
    ensures end.store == S.Serve(c.store, req).state
  {
    var check := Authorize(h, req.check, req.load && req.target in c.store.users);
    var checked := Take(c, check);
    RunOne(c, check);
    DeletionGoes(c.store, req);
    steps, end := [check], checked;
    if checked.phases[h].Purging? {
      var rest, last := PurgeAndDelete(checked, h, req.purge, req.delete);
      RunJoins(c, [check], checked, rest, last);
      AloneTwice(c, h, checked, last);
      steps, end := [check] + rest, last;
    }
  }
}
