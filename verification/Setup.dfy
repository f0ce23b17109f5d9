/** First-run setup: any number of submissions, interleaved call by call. */
module Setup {
  import opened Calls

  /** Accounts are named by their ids, which are never issued twice. */
  type Id = nat

  /** Where one submission is in `CompleteSetup`. `passed` says that its recount found one user. */
  datatype Phase =
    | Submitted
    | Gated
    | Registered(id: Id)
    | Hooking(id: Id, attempts: nat)
    | RollingBack(id: Id, passed: bool)
    | Won(id: Id)
    | Lost(account: Option<Id>, passed: bool)

  /** `late` holds role assignments that were given up on and may still take effect. */
  datatype State = State(users: set<Id>, issued: set<Id>, admins: set<Id>, late: set<Id>, phases: map<nat, Phase>)

  const HOOK_ATTEMPTS: nat := 2

  datatype Step =
    | Gate(s: nat, ok: bool)
    | Insert(s: nat, id: Id, fate: Fate)
    | Recount(s: nat, ok: bool)
    | AssignAdmin(s: nat, fate: Fate, late: bool)
    | RollBack(s: nat, fate: Fate)
    | LandLate(id: Id)
    | Register(id: Id)
    | DeleteUser(id: Id)

  predicate Enabled(c: State, step: Step) {
    match step
    case Gate(s, _) => s in c.phases && c.phases[s].Submitted?
    case Insert(s, id, _) => s in c.phases && c.phases[s].Gated? && id !in c.issued
    case Recount(s, _) => s in c.phases && c.phases[s].Registered?
    case AssignAdmin(s, _, _) => s in c.phases && c.phases[s].Hooking?
    case RollBack(s, _) => s in c.phases && c.phases[s].RollingBack?
    case LandLate(id) => id in c.late
    case Register(id) => id !in c.issued
    case DeleteUser(_) => true
  }

  function Enter(c: State, s: nat, phase: Phase): State { c.(phases := c.phases[s := phase]) }

  function Take(c: State, step: Step): State
    requires Enabled(c, step)
  {
    match step
    case Gate(s, ok) => Enter(c, s, if ok && |c.users| == 0 then Gated else Lost(None, false))
    case Insert(s, id, fate) =>
      var inserted := c.(issued := c.issued + {id}, users := if fate.Lands() then c.users + {id} else c.users);
      Enter(inserted, s, if fate == Works then Registered(id) else Lost(Some(id), false))
    case Recount(s, ok) =>
      var id := c.phases[s].id;
      Enter(c, s, if ok && |c.users| == 1 then Hooking(id, 0) else RollingBack(id, false))
    case AssignAdmin(s, fate, late) =>
      var Hooking(id, attempts) := c.phases[s];
      var written := if fate.Lands() then c.(admins := c.admins + {id})
                      else if late then c.(late := c.late + {id}) else c;
      Enter(written, s, if fate == Works then Won(id)
                         else if attempts + 1 < HOOK_ATTEMPTS then Hooking(id, attempts + 1)
                         else RollingBack(id, true))
    case RollBack(s, fate) =>
      var RollingBack(id, passed) := c.phases[s];
      Enter(if fate.Lands() then c.(users := c.users - {id}) else c, s, Lost(Some(id), passed))
    case LandLate(id) => c.(admins := c.admins + {id}, late := c.late - {id})
    case Register(id) => c.(users := c.users + {id}, issued := c.issued + {id})
    case DeleteUser(id) => c.(users := c.users - {id})
  }

  predicate Run(c: State, steps: seq<Step>, end: State)
    decreases |steps|
  {
    if steps == [] then c == end
    else Enabled(c, steps[0]) && Run(Take(c, steps[0]), steps[1..], end)
  }

  predicate Initial(c: State) {
    c.users <= c.issued && c.late == {} && forall s :: s in c.phases ==> c.phases[s] == Submitted
  }

  /** The account a submission has made, if it got that far. */
  function Account(phase: Phase): Option<Id> {
    match phase
    case Submitted => None
    case Gated => None
    case Registered(id) => Some(id)
    case Hooking(id, _) => Some(id)
    case RollingBack(id, _) => Some(id)
    case Won(id) => Some(id)
    case Lost(account, _) => account
  }

  predicate PastRecount(phase: Phase) {
    phase.Hooking? || phase.Won? || (phase.RollingBack? && phase.passed) || (phase.Lost? && phase.passed)
  }

  /** Past its recount and with its account still stored. */
  predicate StandsPast(c: State, s: nat) {
    s in c.phases && PastRecount(c.phases[s]) && Account(c.phases[s]).Some? && Account(c.phases[s]).value in c.users
  }

  ghost predicate OneStands(c: State) {
    && c.users <= c.issued
    && (forall s :: s in c.phases && Account(c.phases[s]).Some? ==> Account(c.phases[s]).value in c.issued)
    && (forall s, t :: s in c.phases && t in c.phases && s != t && Account(c.phases[s]).Some? ==>
          Account(c.phases[s]) != Account(c.phases[t]))
    && (forall s, t :: StandsPast(c, s) && StandsPast(c, t) ==> s == t)
  }

  lemma OneElement(users: set<Id>, a: Id, b: Id)
    requires |users| == 1 && a in users && b in users
    ensures a == b
  {
    assert |users - {a}| == 0;
  }

  lemma StepKeepsAccounts(c: State, step: Step)
    requires OneStands(c) && Enabled(c, step)
    ensures var c' := Take(c, step);
            && c'.users <= c'.issued
            && (forall s :: s in c'.phases && Account(c'.phases[s]).Some? ==> Account(c'.phases[s]).value in c'.issued)
            && (forall s, t :: s in c'.phases && t in c'.phases && s != t && Account(c'.phases[s]).Some? ==>
                  Account(c'.phases[s]) != Account(c'.phases[t]))
  {
  }

  /** Only a recount that finds one user lets a submission pass. */
  lemma PassesByRecount(c: State, step: Step, s: nat)
    requires OneStands(c) && Enabled(c, step) && StandsPast(Take(c, step), s)
    ensures StandsPast(c, s) || (step.Recount? && |c.users| == 1)
  {
  }

  lemma StepKeepsOne(c: State, step: Step)
    requires OneStands(c) && Enabled(c, step)
    ensures OneStands(Take(c, step))
  {
    var c' := Take(c, step);
    StepKeepsAccounts(c, step);
    forall s, t | StandsPast(c', s) && StandsPast(c', t) ensures s == t {
      PassesByRecount(c, step, s);
      PassesByRecount(c, step, t);
      if step.Recount? && |c.users| == 1 {
        OneElement(c.users, Account(c'.phases[s]).value, Account(c'.phases[t]).value);
      }
    }
  }

  lemma {:induction false} RunKeepsOne(c: State, steps: seq<Step>, end: State)
    requires OneStands(c) && Run(c, steps, end)
    ensures OneStands(end)
    decreases |steps|
  {
    if steps != [] {
      StepKeepsOne(c, steps[0]);
      RunKeepsOne(Take(c, steps[0]), steps[1..], end);
    }
  }

  /** Whatever is interleaved, with ordinary registrations and deletions too, and whatever
      fails: at most one submission past its recount has its account still stored. */
  lemma AtMostOneStands(c: State, steps: seq<Step>, end: State, s: nat, t: nat)
    requires Initial(c) && Run(c, steps, end)
    requires StandsPast(end, s) && StandsPast(end, t)
    ensures s == t
  {
    RunKeepsOne(c, steps, end);
  }

  // ---------------------------------------------------------------- setup on its own

  /** No other account operation. */
  predicate OnItsOwn(step: Step) { !step.Register? && !step.DeleteUser? }

  predicate AllOnTheirOwn(steps: seq<Step>) {
    forall i :: 0 <= i < |steps| ==> OnItsOwn(steps[i])
  }

  /** An insert that takes effect although its caller is told that it failed, so that nothing
      rolls it back, or a rollback that fails. */
  predicate Strands(step: Step) {
    (step.Insert? && step.fate == WorksUnreported) || (step.RollBack? && step.fate == Fails)
  }

  predicate SomeStrands(steps: seq<Step>) {
    exists i :: 0 <= i < |steps| && Strands(steps[i])
  }

  /** Hooks, counts and inserts may still fail. */
  predicate Undisturbed(step: Step) { OnItsOwn(step) && !Strands(step) }

  predicate AllUndisturbed(steps: seq<Step>) {
    forall i :: 0 <= i < |steps| ==> Undisturbed(steps[i])
  }

  /** This submission is responsible for a stored account. */
  predicate Holds(phase: Phase) {
    phase.Registered? || phase.Hooking? || phase.RollingBack? || phase.Won?
  }

  /** Responsible for exactly this account. */
  predicate HoldsAccount(c: State, s: nat, id: Id) {
    s in c.phases && Holds(c.phases[s]) && c.phases[s].id == id
  }

  ghost predicate HeldAreStored(c: State) {
    forall s :: s in c.phases && Holds(c.phases[s]) ==> c.phases[s].id in c.users
  }

  ghost predicate StoredAreHeld(c: State) {
    forall id :: id in c.users ==> exists s :: HoldsAccount(c, s, id)
  }

  ghost predicate WinnersAdminister(c: State) {
    forall s :: s in c.phases && c.phases[s].Won? ==> c.phases[s].id in c.admins
  }

  ghost predicate Accounted(c: State) {
    OneStands(c) && HeldAreStored(c) && StoredAreHeld(c) && WinnersAdminister(c)
  }

  lemma StepKeepsHeld(c: State, step: Step)
    requires OneStands(c) && HeldAreStored(c) && Enabled(c, step) && OnItsOwn(step)
    ensures HeldAreStored(Take(c, step))
  {
  }

  lemma StepKeepsStored(c: State, step: Step)
    requires OneStands(c) && StoredAreHeld(c) && Enabled(c, step) && Undisturbed(step)
    ensures StoredAreHeld(Take(c, step))
  {
    var c' := Take(c, step);
    forall id | id in c'.users ensures exists s :: HoldsAccount(c', s, id) {
      if step.Insert? && id == step.id {
        assert HoldsAccount(c', step.s, id);
      } else {
        var s :| HoldsAccount(c, s, id);
        assert HoldsAccount(c', s, id);
      }
    }
  }

  lemma StepAccounts(c: State, step: Step)
    requires Accounted(c) && Enabled(c, step) && Undisturbed(step)
    ensures Accounted(Take(c, step))
  {
    StepKeepsOne(c, step);
    StepKeepsHeld(c, step);
    StepKeepsStored(c, step);
  }

  lemma {:induction false} RunAccounts(c: State, steps: seq<Step>, end: State)
    requires Accounted(c) && Run(c, steps, end) && AllUndisturbed(steps)
    ensures Accounted(end) && end.phases.Keys == c.phases.Keys
    decreases |steps|
  {
    if steps != [] {
      StepAccounts(c, steps[0]);
      RunAccounts(Take(c, steps[0]), steps[1..], end);
    }
  }

  predicate AllEnded(c: State) {
    forall s :: s in c.phases ==> c.phases[s].Won? || c.phases[s].Lost?
  }

  /** The only stored account is this submission's, it holds the role, and nobody else won. */
  ghost predicate SoleWinner(c: State, s: nat) {
    && s in c.phases && c.phases[s].Won?
    && c.users == {c.phases[s].id} && c.phases[s].id in c.admins
    && forall t :: t in c.phases && t != s ==> c.phases[t].Lost?
  }

  lemma WinnerIsSole(c: State, s: nat)
    requires Accounted(c) && AllEnded(c) && s in c.phases && c.phases[s].Won?
    ensures SoleWinner(c, s)
  {
    assert StandsPast(c, s);
    forall t | t in c.phases && c.phases[t].Won? ensures t == s {
      assert StandsPast(c, t);
    }
    forall id | id in c.users ensures id == c.phases[s].id {
      var t :| HoldsAccount(c, t, id);
    }
  }

  /** Nobody is left and everybody lost, or there is one winner, whose account is the only one
      stored and so the only live administrator, even if a failed hook's assignment landed for
      somebody else. */
  ghost predicate CleanEnd(c: State) {
    (c.users == {} && forall s :: s in c.phases ==> c.phases[s].Lost?) || exists s :: SoleWinner(c, s)
  }

  lemma UndisturbedEnd(c: State, steps: seq<Step>, end: State)
    requires Initial(c) && c.users == {} && Run(c, steps, end) && AllUndisturbed(steps) && AllEnded(end)
    ensures CleanEnd(end)
  {
    RunAccounts(c, steps, end);
    if s :| s in end.phases && end.phases[s].Won? {
      WinnerIsSole(end, s);
    } else {
      assert forall s, id :: !HoldsAccount(end, s, id);
    }
  }

  /** A submission that lost and whose account is stored all the same. */
  predicate LeftBehind(c: State, s: nat) {
    s in c.phases && c.phases[s].Lost? && c.phases[s].account.Some? && c.phases[s].account.value in c.users
  }

  lemma StrandingLeavesBehind(c: State, step: Step)
    requires OneStands(c) && HeldAreStored(c) && Enabled(c, step) && Strands(step)
    ensures LeftBehind(Take(c, step), step.s)
  {
  }

  lemma LeftBehindStays(c: State, step: Step, s: nat)
    requires OneStands(c) && Enabled(c, step) && OnItsOwn(step) && LeftBehind(c, s)
    ensures LeftBehind(Take(c, step), s)
  {
  }

  lemma {:induction false} RunLeavesBehind(c: State, steps: seq<Step>, end: State, s: nat)
    requires OneStands(c) && Run(c, steps, end) && AllOnTheirOwn(steps) && LeftBehind(c, s)
    ensures LeftBehind(end, s) && OneStands(end)
    decreases |steps|
  {
    if steps != [] {
      StepKeepsOne(c, steps[0]);
      LeftBehindStays(c, steps[0], s);
      RunLeavesBehind(Take(c, steps[0]), steps[1..], end, s);
    }
  }

  lemma {:induction false} StrandedRun(c: State, steps: seq<Step>, end: State) returns (s: nat)
    requires OneStands(c) && HeldAreStored(c) && Run(c, steps, end) && AllOnTheirOwn(steps) && SomeStrands(steps)
    ensures LeftBehind(end, s) && OneStands(end)
    decreases |steps|
  {
    var step, rest := steps[0], steps[1..];
    StepKeepsOne(c, step);
    if Strands(step) {
      s := step.s;
      StrandingLeavesBehind(c, step);
      RunLeavesBehind(Take(c, step), rest, end, s);
    } else {
      var i :| 0 <= i < |steps| && Strands(steps[i]);
      assert Strands(rest[i - 1]);
      StepKeepsHeld(c, step);
      s := StrandedRun(Take(c, step), rest, end);
    }
  }

  lemma LeftBehindIsNoCleanEnd(c: State, s: nat)
    requires OneStands(c) && LeftBehind(c, s)
    ensures !CleanEnd(c)
  {
    forall w ensures !SoleWinner(c, w) {
      assert w in c.phases && w != s ==> Account(c.phases[s]) != Account(c.phases[w]);
    }
  }

  /** Started on an empty instance and left alone, with any counts, inserts, hooks and rollbacks
      failing, setup ends with nobody or with exactly the winner if and only if no insert landed
      although it was reported failed and no rollback failed. */
  lemma NobodyOrTheWinner(c: State, steps: seq<Step>, end: State)
    requires Initial(c) && c.users == {} && Run(c, steps, end) && AllOnTheirOwn(steps) && AllEnded(end)
    ensures CleanEnd(end) <==> !SomeStrands(steps)
  {
    if SomeStrands(steps) {
      var s := StrandedRun(c, steps, end);
      LeftBehindIsNoCleanEnd(end, s);
    } else {
      UndisturbedEnd(c, steps, end);
    }
  }

  const ONE_SUBMITTED: State := State({}, {}, {}, {}, map[0 := Submitted])
  const ONE_STRANDED: State := State({7}, {7}, {}, {}, map[0 := Lost(Some(7), false)])

  /** One insert whose acknowledgement is lost leaves an account that is nobody's administrator
      and closes setup: whoever submits next is turned away. */
  lemma LostAcknowledgementStrands(count: bool)
    ensures Initial(ONE_SUBMITTED)
    ensures Run(ONE_SUBMITTED, [Gate(0, true), Insert(0, 7, WorksUnreported)], ONE_STRANDED)
    ensures AllEnded(ONE_STRANDED) && !CleanEnd(ONE_STRANDED) && ONE_STRANDED.admins == {}
    ensures var next := ONE_STRANDED.(phases := ONE_STRANDED.phases[1 := Submitted]);
            Take(next, Gate(1, count)).phases[1] == Lost(None, false)
  {
    var c1 := Take(ONE_SUBMITTED, Gate(0, true));
    assert Take(c1, Insert(0, 7, WorksUnreported)) == ONE_STRANDED;
    RunBack(c1, Insert(0, 7, WorksUnreported), [], ONE_STRANDED);
    RunBack(ONE_SUBMITTED, Gate(0, true), [Insert(0, 7, WorksUnreported)], ONE_STRANDED);
    assert !SoleWinner(ONE_STRANDED, 0) && 7 in ONE_STRANDED.users;
  }

  // ---------------------------------------------------------------- exactly one winner?

  const TWO_GATED: State := State({}, {}, {}, {}, map[0 := Submitted, 1 := Submitted])
  const TWO_REGISTERED: State := State({7, 8}, {7, 8}, {}, {}, map[0 := Registered(7), 1 := Registered(8)])
  const TWO_LOST: State := State({}, {7, 8}, {}, {}, map[0 := Lost(Some(7), false), 1 := Lost(Some(8), false)])

  lemma BothRegister()
    ensures Run(TWO_GATED, [Gate(0, true), Gate(1, true), Insert(0, 7, Works), Insert(1, 8, Works)], TWO_REGISTERED)
  {
    var c1 := Take(TWO_GATED, Gate(0, true));
    var c2 := Take(c1, Gate(1, true));
    var c3 := Take(c2, Insert(0, 7, Works));
    assert Take(c3, Insert(1, 8, Works)) == TWO_REGISTERED;
    RunBack(c3, Insert(1, 8, Works), [], TWO_REGISTERED);
    RunBack(c2, Insert(0, 7, Works), [Insert(1, 8, Works)], TWO_REGISTERED);
    RunBack(c1, Gate(1, true), [Insert(0, 7, Works), Insert(1, 8, Works)], TWO_REGISTERED);
    RunBack(TWO_GATED, Gate(0, true), [Gate(1, true), Insert(0, 7, Works), Insert(1, 8, Works)], TWO_REGISTERED);
  }

  lemma BothRollBack()
    ensures Run(TWO_REGISTERED, [Recount(0, true), Recount(1, true), RollBack(0, Works), RollBack(1, Works)], TWO_LOST)
  {
    assert |TWO_REGISTERED.users| == 2;
    var c1 := Take(TWO_REGISTERED, Recount(0, true));
    var c2 := Take(c1, Recount(1, true));
    var c3 := Take(c2, RollBack(0, Works));
    assert Take(c3, RollBack(1, Works)) == TWO_LOST;
    RunBack(c3, RollBack(1, Works), [], TWO_LOST);
    RunBack(c2, RollBack(0, Works), [RollBack(1, Works)], TWO_LOST);
    RunBack(c1, Recount(1, true), [RollBack(0, Works), RollBack(1, Works)], TWO_LOST);
    RunBack(TWO_REGISTERED, Recount(0, true), [Recount(1, true), RollBack(0, Works), RollBack(1, Works)], TWO_LOST);
  }

  lemma JoinedSteps(first: seq<Step>, second: seq<Step>)
    requires first != []
    ensures (first + second)[0] == first[0] && (first + second)[1..] == first[1..] + second
  {
  }

  lemma {:induction false} RunJoins(c: State, first: seq<Step>, middle: State, second: seq<Step>, end: State)
    requires Run(c, first, middle) && Run(middle, second, end)
    ensures Run(c, first + second, end)
    decreases |first|
  {
    if first == [] {
      assert first + second == second;
    } else {
      RunJoins(Take(c, first[0]), first[1..], middle, second, end);
      JoinedSteps(first, second);
    }
  }

  lemma FourUndisturbed(a: Step, b: Step, d: Step, e: Step)
    requires Undisturbed(a) && Undisturbed(b) && Undisturbed(d) && Undisturbed(e)
    ensures AllUndisturbed([a, b, d, e])
  {
  }

  lemma UndisturbedJoins(first: seq<Step>, second: seq<Step>)
    requires AllUndisturbed(first) && AllUndisturbed(second)
    ensures AllUndisturbed(first + second)
  {
  }

  lemma TwoLostIsAnEnd()
    ensures Initial(TWO_GATED) && AllEnded(TWO_LOST)
  {
  }

  /** The promise of exactly one winner fails: two submissions that both count two users both
      roll back, and the instance is left as it was. */
  lemma TwoSubmissionsMayBothLose() returns (steps: seq<Step>)
    ensures Initial(TWO_GATED) && Run(TWO_GATED, steps, TWO_LOST) && AllUndisturbed(steps) && AllEnded(TWO_LOST)
  {
    var first := [Gate(0, true), Gate(1, true), Insert(0, 7, Works), Insert(1, 8, Works)];
    var second := [Recount(0, true), Recount(1, true), RollBack(0, Works), RollBack(1, Works)];
    BothRegister();
    BothRollBack();
    RunJoins(TWO_GATED, first, TWO_REGISTERED, second, TWO_LOST);
    TwoLostIsAnEnd();
    FourUndisturbed(first[0], first[1], first[2], first[3]);
    FourUndisturbed(second[0], second[1], second[2], second[3]);
    UndisturbedJoins(first, second);
    steps := first + second;
  }

  lemma RunBack(c: State, step: Step, rest: seq<Step>, end: State)
    requires Enabled(c, step) && Run(Take(c, step), rest, end)
    ensures Run(c, [step] + rest, end)
  {
  }

  /** No call of a submission fails. */
  predicate Clean(step: Step) {
    match step
    case Gate(_, ok) => ok
    case Insert(_, _, fate) => fate == Works
    case Recount(_, ok) => ok
    case AssignAdmin(_, fate, _) => fate == Works
    case RollBack(_, fate) => fate == Works
    case LandLate(_) => true
    case Register(_) => false
    case DeleteUser(_) => false
  }

  /** The schedule alone: some submission recounts while every other one either has not inserted
      its account yet or has already rolled it back. `open` are those in between. */
  predicate RecountsAlone(open: set<nat>, steps: seq<Step>)
    decreases |steps|
  {
    |steps| > 0
    && match steps[0]
       case Insert(s, _, _) => RecountsAlone(open + {s}, steps[1..])
       case RollBack(s, _) => RecountsAlone(open - {s}, steps[1..])
       case Recount(s, _) => open == {s} || RecountsAlone(open, steps[1..])
       case _ => RecountsAlone(open, steps[1..])
  }

  /** The submissions responsible for a stored account. */
  function Holders(c: State): set<nat> { set s | s in c.phases && Holds(c.phases[s]) }

  lemma OneUserOneHolder(c: State, s: nat)
    requires Accounted(c) && s in Holders(c)
    ensures |c.users| == 1 <==> Holders(c) == {s}
  {
    var id := c.phases[s].id;
    if |c.users| == 1 {
      forall t | t in Holders(c) ensures t == s {
        assert t != s ==> Account(c.phases[s]) != Account(c.phases[t]);
        OneElement(c.users, id, c.phases[t].id);
      }
    }
    if Holders(c) == {s} {
      forall user | user in c.users ensures user == id {
        var t :| HoldsAccount(c, t, user);
        assert t in Holders(c);
      }
      assert c.users == {id};
    }
  }

  lemma InsertHolds(c: State, step: Step)
    requires Enabled(c, step) && step.Insert? && step.fate == Works
    ensures Holders(Take(c, step)) == Holders(c) + {step.s}
  {
  }

  lemma RollBackReleases(c: State, step: Step)
    requires Enabled(c, step) && step.RollBack?
    ensures Holders(Take(c, step)) == Holders(c) - {step.s}
  {
  }

  lemma OthersHoldAlike(c: State, step: Step)
    requires Enabled(c, step) && Clean(step) && !step.Insert? && !step.RollBack?
    ensures Holders(Take(c, step)) == Holders(c)
  {
    var c' := Take(c, step);
    assert forall s :: s in c.phases <==> s in c'.phases;
    assert forall s :: s in c.phases ==> (Holds(c.phases[s]) <==> Holds(c'.phases[s]));
  }

  ghost predicate Winning(c: State) {
    exists s :: s in c.phases && (c.phases[s].Hooking? || c.phases[s].Won?)
  }

  lemma CleanStepKeepsWinning(c: State, step: Step)
    requires Enabled(c, step) && Clean(step)
    ensures Winning(Take(c, step)) <==> Winning(c) || (step.Recount? && |c.users| == 1)
  {
    var c' := Take(c, step);
    if s :| s in c.phases && (c.phases[s].Hooking? || c.phases[s].Won?) {
      assert s in c'.phases && (c'.phases[s].Hooking? || c'.phases[s].Won?);
    }
    if step.Recount? && |c.users| == 1 {
      assert c'.phases[step.s].Hooking?;
    }
    if s :| s in c'.phases && (c'.phases[s].Hooking? || c'.phases[s].Won?) {
      assert s in c.phases;
    }
  }

  lemma {:induction false} CleanRunWinning(c: State, steps: seq<Step>, end: State)
    requires Accounted(c) && Run(c, steps, end) && forall i :: 0 <= i < |steps| ==> Clean(steps[i])
    ensures Winning(end) <==> Winning(c) || RecountsAlone(Holders(c), steps)
    decreases |steps|
  {
    if steps != [] {
      CleanStepKeepsWinning(c, steps[0]);
      StepAccounts(c, steps[0]);
      if steps[0].Insert? {
        InsertHolds(c, steps[0]);
      } else if steps[0].RollBack? {
        RollBackReleases(c, steps[0]);
      } else {
        OthersHoldAlike(c, steps[0]);
        if steps[0].Recount? {
          OneUserOneHolder(c, steps[0].s);
        }
      }
      CleanRunWinning(Take(c, steps[0]), steps[1..], end);
    }
  }

  /** When no call fails, setup ends with exactly one winner if and only if some submission
      recounts while no other one is between its insert and its rollback. */
  lemma ExactlyOneWinnerWhen(c: State, steps: seq<Step>, end: State)
    requires Initial(c) && c.users == {} && Run(c, steps, end) && AllEnded(end)
    requires forall i :: 0 <= i < |steps| ==> Clean(steps[i])
    ensures (exists s :: SoleWinner(end, s)) <==> RecountsAlone({}, steps)
  {
    UndisturbedEnd(c, steps, end);
    assert Holders(c) == {};
    CleanRunWinning(c, steps, end);
  }

  /** A single submission on an empty instance, when no call fails, wins. */
  lemma {:induction false} LoneSubmissionWins(c: State, steps: seq<Step>, end: State, s: nat)
    requires Accounted(c) && Run(c, steps, end) && AllEnded(end)
    requires forall i :: 0 <= i < |steps| ==> Clean(steps[i])
    requires c.phases.Keys == {s} && !c.phases[s].RollingBack? && !c.phases[s].Lost?
    ensures end.phases.Keys == {s} && end.phases[s].Won? && end.users == {end.phases[s].id}
    decreases |steps|
  {
    var phase := c.phases[s];
    assert c.users == if Holds(phase) then {phase.id} else {};
    if steps != [] {
      StepAccounts(c, steps[0]);
      LoneSubmissionWins(Take(c, steps[0]), steps[1..], end, s);
    }
  }

  // ---------------------------------------------------------------- what an end is earned by

  /** How many attempts of this submission at the role have been reported failed. */
  function HookFailures(done: seq<Step>, s: nat): nat {
    if done == [] then 0
    else
      var last := done[|done| - 1];
      HookFailures(done[..|done| - 1], s) + (if last.AssignAdmin? && last.s == s && last.fate != Works then 1 else 0)
  }

  /** What must have been reported to a submission for it to be where it is. */
  ghost predicate Earned(done: seq<Step>, s: nat, phase: Phase) {
    && (!phase.Submitted? && !phase.Lost? ==> Gate(s, true) in done)
    && (Holds(phase) ==> Insert(s, phase.id, Works) in done)
    && (PastRecount(phase) ==> Gate(s, true) in done && Recount(s, true) in done)
    && (phase.Won? ==> exists late :: AssignAdmin(s, Works, late) in done)
    && match phase
       case Hooking(_, attempts) => HookFailures(done, s) == attempts && attempts < 2
       case Won(_) => HookFailures(done, s) < 2
       case RollingBack(_, passed) => HookFailures(done, s) == if passed then 2 else 0
       case Lost(_, passed) => HookFailures(done, s) == if passed then 2 else 0
       case _ => HookFailures(done, s) == 0
  }

  lemma OneMoreStep(done: seq<Step>, step: Step, s: nat)
    ensures HookFailures(done + [step], s)
         == HookFailures(done, s) + (if step.AssignAdmin? && step.s == s && step.fate != Works then 1 else 0)
    ensures step in done + [step] && forall x :: x in done ==> x in done + [step]
  {
    assert (done + [step])[..|done|] == done;
  }

  lemma EarnedStep(c: State, done: seq<Step>, step: Step, s: nat)
    requires Enabled(c, step) && s in c.phases && Earned(done, s, c.phases[s])
    ensures s in Take(c, step).phases && Earned(done + [step], s, Take(c, step).phases[s])
  {
    OneMoreStep(done, step, s);
    if step.LandLate? || step.Register? || step.DeleteUser? || step.s != s {
      assert Take(c, step).phases[s] == c.phases[s];
    } else if step.AssignAdmin? {
      AttemptEarns(c, done, step);
    } else {
      OwnStepEarns(c, done, step);
    }
  }

  lemma AttemptEarns(c: State, done: seq<Step>, step: Step)
    requires Enabled(c, step) && step.AssignAdmin? && Earned(done, step.s, c.phases[step.s])
    ensures step.s in Take(c, step).phases && Earned(done + [step], step.s, Take(c, step).phases[step.s])
  {
    OneMoreStep(done, step, step.s);
  }

  lemma OwnStepEarns(c: State, done: seq<Step>, step: Step)
    requires Enabled(c, step) && (step.Gate? || step.Insert? || step.Recount? || step.RollBack?)
    requires Earned(done, step.s, c.phases[step.s])
    ensures step.s in Take(c, step).phases && Earned(done + [step], step.s, Take(c, step).phases[step.s])
  {
    OneMoreStep(done, step, step.s);
  }

  lemma {:induction false} RunEarns(c: State, done: seq<Step>, steps: seq<Step>, end: State, s: nat)
    requires Run(c, steps, end) && s in c.phases && Earned(done, s, c.phases[s])
    ensures s in end.phases && Earned(done + steps, s, end.phases[s])
    decreases |steps|
  {
    if steps == [] {
      assert done + steps == done;
    } else {
      EarnedStep(c, done, steps[0], s);
      RunEarns(Take(c, steps[0]), done + [steps[0]], steps[1..], end, s);
      assert done + [steps[0]] + steps[1..] == done + steps;
    }
  }

  /** However submissions interleave: whoever won was told that its count, its insert, its recount
      and an attempt at the role had worked, and whoever lost after its recount was told twice that
      the role could not be given. */
  lemma EndsAreEarned(c: State, steps: seq<Step>, end: State, s: nat)
    requires Initial(c) && Run(c, steps, end) && s in c.phases
    ensures s in end.phases
    ensures end.phases[s].Won? ==>
              && Gate(s, true) in steps && Insert(s, end.phases[s].id, Works) in steps && Recount(s, true) in steps
              && exists late :: AssignAdmin(s, Works, late) in steps
    ensures end.phases[s].Lost? ==> HookFailures(steps, s) == if end.phases[s].passed then 2 else 0
  {
    RunEarns(c, [], steps, end, s);
    assert [] + steps == steps;
  }

  /** An assignment that was given up on gives the role when it lands, to the same account. */
  lemma LandsAsSent(c: State, s: nat)
    requires s in c.phases && c.phases[s].Hooking?
    ensures var lost, id := Take(c, AssignAdmin(s, Fails, true)), c.phases[s].id;
            && lost.admins == c.admins && Enabled(lost, LandLate(id))
            && Take(lost, LandLate(id)).admins == Take(c, AssignAdmin(s, Works, true)).admins
  {
  }

  // ---------------------------------------------------------------- the hook

  class RoleHolders {
    var admins: set<string>

    /** Assigns the administrator role to the first user, trying again once. */
    method OnFirstUser(userRef: string, fates: seq<Fate>) returns (ok: bool)
      requires |fates| == HOOK_ATTEMPTS
      modifies this
      ensures ok <==> fates[0] == Works || fates[1] == Works
      ensures admins == if fates[0].Lands() || (fates[0] != Works && fates[1].Lands())
                        then old(admins) + {userRef} else old(admins)
      ensures ok ==> userRef in admins
    {
      for attempt := 0 to HOOK_ATTEMPTS
        invariant forall k :: 0 <= k < attempt ==> fates[k] != Works
        invariant admins == if exists k :: 0 <= k < attempt && fates[k].Lands()
                            then old(admins) + {userRef} else old(admins)
      {
        if fates[attempt].Lands() {
          admins := admins + {userRef};
        }
        if fates[attempt] == Works {
          return true;
        }
      }
      return false;
    }
  }
}
