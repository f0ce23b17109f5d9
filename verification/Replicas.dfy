/** Any number of processes migrating one database at the same time. */
module Replicas {
  import opened Calls
  import opened Migrate

  /** Where one process is in `Up`. */
  datatype Phase =
    | Idle
    | Locked
    | Created
    | Walking(applied: seq<Record>, next: nat, left: map<int, Record>)
    | Executed(applied: seq<Record>, next: nat, left: map<int, Record>)
    | Inserted(applied: seq<Record>, next: nat, left: map<int, Record>)
    | Leaving(outcome: Outcome)
    | Finished(outcome: Outcome)

  datatype Cluster = Cluster(rows: seq<Record>, effects: seq<Migration>, holder: Option<nat>, phases: map<nat, Phase>)

  /** The sorted files of each process, and whether the engine's lock is more than a no-op. */
  datatype Setting = Setting(locking: bool, files: nat -> seq<Migration>)

  datatype Step =
    | Lock(r: nat, fate: Fate)
    | CreateTable(r: nat, ok: bool)
    | ReadRecords(r: nat, ok: bool)
    | Visit(r: nat)
    | Execute(r: nat, ok: bool)
    | InsertRow(r: nat, ok: bool)
    | Commit(r: nat, fate: Fate)
    | Conclude(r: nat, missing: int)
    | Unlock(r: nat, ok: bool)
    | SessionLost(r: nat)

  function ByVersion(rows: seq<Record>): map<int, Record> {
    if rows == [] then map[]
    else ByVersion(rows[..|rows| - 1])[rows[|rows| - 1].version := rows[|rows| - 1]]
  }

  predicate InRun(phase: Phase) {
    !phase.Idle? && !phase.Finished?
  }

  predicate InLoop(phase: Phase) {
    phase.Walking? || phase.Executed? || phase.Inserted?
  }

  predicate Enabled(w: Setting, c: Cluster, s: Step) {
    s.r in c.phases &&
    var phase, ms := c.phases[s.r], w.files(s.r);
    match s
    case Lock(_, fate) => phase.Idle? && (w.locking && fate.Lands() ==> c.holder.None?)
    case CreateTable(_, _) => phase.Locked?
    case ReadRecords(_, _) => phase.Created?
    case Visit(_) => phase.Walking? && phase.next < |ms| && ms[phase.next].version in phase.left
    case Execute(_, _) => phase.Walking? && phase.next < |ms| && ms[phase.next].version !in phase.left
    case InsertRow(_, ok) =>
      phase.Executed? && phase.next < |ms| && (Recorded(c.rows, ms[phase.next].version) ==> !ok)
    case Commit(_, fate) =>
      phase.Inserted? && phase.next < |ms| && (Recorded(c.rows, ms[phase.next].version) ==> fate == Fails)
    case Conclude(_, v) => phase.Walking? && phase.next == |ms| && (phase.left != map[] ==> v in phase.left)
    case Unlock(_, _) => phase.Leaving?
    case SessionLost(_) => InRun(phase) || c.holder == Some(s.r)
  }

  function Enter(c: Cluster, r: nat, phase: Phase): Cluster { c.(phases := c.phases[r := phase]) }

  function Take(w: Setting, c: Cluster, s: Step): Cluster
    requires Enabled(w, c, s)
  {
    var phase, ms := c.phases[s.r], w.files(s.r);
    match s
    case Lock(r, fate) =>
      var locked := if w.locking && fate.Lands() then c.(holder := Some(r)) else c;
      Enter(locked, r, if fate == Works then Locked else Finished(Unavailable))
    case CreateTable(r, ok) => Enter(c, r, if ok then Created else Leaving(Unavailable))
    case ReadRecords(r, ok) => Enter(c, r, if ok then Walking(c.rows, 0, ByVersion(c.rows)) else Leaving(Unavailable))
    case Visit(r) =>
      var m := ms[phase.next];
      Enter(c, r, if phase.left[m.version].checksum != m.checksum then Leaving(ChecksumMismatch(m.version))
                  else Walking(phase.applied, phase.next + 1, phase.left - {m.version}))
    case Execute(r, ok) =>
      Enter(c, r, if ok then Executed(phase.applied, phase.next, phase.left)
                  else Leaving(ApplyFailed(ms[phase.next].version)))
    case InsertRow(r, ok) =>
      Enter(c, r, if ok then Inserted(phase.applied, phase.next, phase.left)
                  else Leaving(ApplyFailed(ms[phase.next].version)))
    case Commit(r, fate) =>
      var m := ms[phase.next];
      var written := if fate.Lands() then c.(rows := c.rows + [RecordOf(m)], effects := c.effects + [m]) else c;
      Enter(written, r, if fate == Works then Walking(phase.applied, phase.next + 1, phase.left)
                        else Leaving(ApplyFailed(m.version)))
    case Conclude(r, v) => Enter(c, r, Leaving(if phase.left == map[] then Success else MissingFile(v)))
    case Unlock(r, ok) =>
      Enter(if ok && c.holder == Some(r) then c.(holder := None) else c, r, Finished(phase.outcome))
    case SessionLost(r) =>
      Enter(if c.holder == Some(r) then c.(holder := None) else c, r,
            if InRun(phase) then Finished(Unavailable) else phase)
  }

  predicate Run(w: Setting, c: Cluster, steps: seq<Step>, end: Cluster)
    decreases |steps|
  {
    if steps == [] then c == end
    else Enabled(w, c, steps[0]) && Run(w, Take(w, c, steps[0]), steps[1..], end)
  }

  /** Nobody has started; the table lists what has been executed. */
  ghost predicate Initial(c: Cluster) {
    && (forall r :: r in c.phases ==> c.phases[r] == Idle)
    && c.holder == None && UniqueRows(c.rows) && c.rows == RecordsOf(c.effects)
  }

  // ---------------------------------------------------------------- with any engine

  /** The table lists exactly the executed migrations, each version once. */
  ghost predicate InAccord(c: Cluster) {
    UniqueRows(c.rows) && c.rows == RecordsOf(c.effects)
  }

  lemma {:induction false} RunKeepsRecords(w: Setting, c: Cluster, steps: seq<Step>, end: Cluster)
    requires InAccord(c) && Run(w, c, steps, end)
    ensures InAccord(end) && c.rows <= end.rows && c.effects <= end.effects
    decreases |steps|
  {
    if steps != [] {
      StepKeepsRecords(w, c, steps[0]);
      RunKeepsRecords(w, Take(w, c, steps[0]), steps[1..], end);
    }
  }

  lemma StepKeepsRecords(w: Setting, c: Cluster, s: Step)
    requires InAccord(c) && Enabled(w, c, s)
    ensures InAccord(Take(w, c, s))
    ensures c.rows <= Take(w, c, s).rows && c.effects <= Take(w, c, s).effects
  {
  }

  /** Whatever is interleaved and whatever fails, with or without a lock, each version's
      statements commit at most once and the table lists them in the order they committed. */
  lemma CommittedAtMostOnce(w: Setting, c: Cluster, steps: seq<Step>, end: Cluster)
    requires Initial(c) && Run(w, c, steps, end)
    ensures end.rows == RecordsOf(end.effects)
    ensures forall i, j :: 0 <= i < j < |end.effects| ==> end.effects[i].version != end.effects[j].version
    ensures c.effects <= end.effects
  {
    RunKeepsRecords(w, c, steps, end);
    forall i, j | 0 <= i < j < |end.effects| ensures end.effects[i].version != end.effects[j].version {
      assert end.rows[i].version != end.rows[j].version;
    }
  }

  // ---------------------------------------------------------------- under the lock

  function NeverFails(): Attempts { (v: int) => Attempt(true, true, true, Works) }

  /** A process in its loop has applied exactly the pending files before the current one. */
  ghost predicate InStep(c: Cluster, ms: seq<Migration>, phase: Phase)
    requires InLoop(phase)
  {
    && UniqueRows(phase.applied) && phase.next <= |ms|
    && (!phase.Walking? ==> phase.next < |ms| && ms[phase.next].version !in phase.left)
    && PassedBefore(phase.applied, ms, NeverFails(), phase.next)
    && LeftOver(phase.left, phase.applied, ms, phase.next)
    && c.rows == phase.applied + RecordsOf(Pending(phase.applied, ms[..phase.next]))
  }

  /** What a process about to report success can say of the table. */
  ghost predicate Complete(c: Cluster, ms: seq<Migration>) {
    forall v, checksum :: RecordedAs(c.rows, v, checksum) <==> HasFileAs(ms, v, checksum)
  }

  ghost predicate Safe(w: Setting, c: Cluster) {
    && InAccord(c)
    && (forall r :: r in c.phases && InRun(c.phases[r]) ==> c.holder == Some(r))
    && (forall r :: r in c.phases && InLoop(c.phases[r]) ==> InStep(c, w.files(r), c.phases[r]))
    && (forall r :: r in c.phases && c.phases[r] == Leaving(Success) ==> Complete(c, w.files(r)))
  }

  ghost predicate Serialised(w: Setting) {
    w.locking && forall r :: Ascending(w.files(r))
  }

  lemma OneMoreRecorded(rows: seq<Record>, v: int)
    requires rows != []
    ensures Recorded(rows, v) <==> Recorded(rows[..|rows| - 1], v) || rows[|rows| - 1].version == v
  {
    var n := |rows| - 1;
    if Recorded(rows[..n], v) {
      var i :| 0 <= i < n && rows[..n][i].version == v;
      assert rows[i].version == v;
    }
    if Recorded(rows, v) {
      var i :| 0 <= i < |rows| && rows[i].version == v;
      assert i < n ==> rows[..n][i].version == v;
    }
  }

  lemma {:induction false} ByVersionIsLeftOver(rows: seq<Record>, ms: seq<Migration>)
    requires UniqueRows(rows)
    ensures LeftOver(ByVersion(rows), rows, ms, 0)
  {
    if rows != [] {
      var n := |rows| - 1;
      ByVersionIsLeftOver(rows[..n], ms);
      assert rows == rows[..n] + [rows[n]];
      forall v ensures Recorded(rows, v) <==> Recorded(rows[..n], v) || rows[n].version == v {
        OneMoreRecorded(rows, v);
      }
    }
  }

  /** Only the process that holds the lock writes. */
  lemma OnlyHolderWrites(w: Setting, c: Cluster, s: Step)
    requires Safe(w, c) && Enabled(w, c, s)
    requires Take(w, c, s).rows != c.rows || Take(w, c, s).effects != c.effects
    ensures c.holder == Some(s.r) && forall r :: r in c.phases && InRun(c.phases[r]) ==> r == s.r
  {
  }

  lemma VisitSafe(c: Cluster, ms: seq<Migration>, phase: Phase)
    requires Ascending(ms) && phase.Walking? && InStep(c, ms, phase) && phase.next < |ms|
    requires ms[phase.next].version in phase.left
    requires phase.left[ms[phase.next].version].checksum == ms[phase.next].checksum
    ensures InStep(c, ms, Walking(phase.applied, phase.next + 1, phase.left - {ms[phase.next].version}))
  {
    LeftOverStep(phase.left, phase.applied, ms, phase.next);
    PendingSnoc(phase.applied, ms, phase.next);
  }

  lemma CommitSafe(c: Cluster, ms: seq<Migration>, phase: Phase, written: Cluster)
    requires Ascending(ms) && phase.Inserted? && InStep(c, ms, phase)
    requires written.rows == c.rows + [RecordOf(ms[phase.next])]
    ensures InStep(written, ms, Walking(phase.applied, phase.next + 1, phase.left))
  {
    var m := ms[phase.next];
    LeftOverStep(phase.left, phase.applied, ms, phase.next);
    PendingSnoc(phase.applied, ms, phase.next);
    RecordsOneMore(phase.applied, Pending(phase.applied, ms[..phase.next]), m);
    assert phase.left - {m.version} == phase.left;
  }

  lemma RecordsOneMore(applied: seq<Record>, added: seq<Migration>, m: Migration)
    ensures applied + RecordsOf(added) + [RecordOf(m)] == applied + RecordsOf(added + [m])
  {
    RecordsOfAppend(added, [m]);
  }

  /** The process that takes a step in its loop stays in step with the table. */
  lemma LoopStepSafe(w: Setting, c: Cluster, s: Step)
    requires Serialised(w) && Safe(w, c) && Enabled(w, c, s) && (s.Visit? || s.Execute? || s.InsertRow? || s.Commit?)
    ensures var c' := Take(w, c, s);
            InLoop(c'.phases[s.r]) ==> InStep(c', w.files(s.r), c'.phases[s.r])
  {
    var phase, ms := c.phases[s.r], w.files(s.r);
    assert InStep(c, ms, phase);
    if s.Visit? && phase.left[ms[phase.next].version].checksum == ms[phase.next].checksum {
      VisitSafe(c, ms, phase);
    } else if s.Commit? && s.fate == Works {
      CommitSafe(c, ms, phase, Take(w, c, s));
    }
  }

  lemma ConcludeSafe(w: Setting, c: Cluster, s: Step)
    requires Serialised(w) && Safe(w, c) && Enabled(w, c, s) && s.Conclude?
    ensures c.phases[s.r].left == map[] ==> Complete(c, w.files(s.r))
  {
    var phase, ms := c.phases[s.r], w.files(s.r);
    WentThrough(phase.left, phase.applied, ms, NeverFails());
    assert ms[..|ms|] == ms;
    if phase.left == map[] {
      forall v, checksum ensures RecordedAs(c.rows, v, checksum) <==> HasFileAs(ms, v, checksum) {
        SuccessPairs(phase.applied, ms, NeverFails(), v, checksum);
      }
    }
  }

  lemma StepKeepsHolder(w: Setting, c: Cluster, s: Step)
    requires Serialised(w) && Safe(w, c) && Enabled(w, c, s)
    ensures var c' := Take(w, c, s);
            forall r :: r in c'.phases && InRun(c'.phases[r]) ==> c'.holder == Some(r)
  {
  }

  lemma ReadSafe(w: Setting, c: Cluster, s: Step)
    requires Serialised(w) && Safe(w, c) && Enabled(w, c, s) && s.ReadRecords? && s.ok
    ensures InStep(c, w.files(s.r), Walking(c.rows, 0, ByVersion(c.rows)))
  {
    ByVersionIsLeftOver(c.rows, w.files(s.r));
    assert c.rows == c.rows + RecordsOf(Pending(c.rows, w.files(s.r)[..0]));
  }

  /** Another process in its loop holds the lock, so this step wrote nothing. */
  lemma OtherStaysInStep(w: Setting, c: Cluster, s: Step, r: nat)
    requires Safe(w, c) && Enabled(w, c, s) && r != s.r && r in c.phases && InLoop(c.phases[r])
    ensures Take(w, c, s).phases[r] == c.phases[r] && InStep(Take(w, c, s), w.files(r), c.phases[r])
  {
    assert InStep(c, w.files(r), c.phases[r]);
    assert Take(w, c, s).rows == c.rows;
  }

  lemma StepKeepsInStep(w: Setting, c: Cluster, s: Step, r: nat)
    requires Serialised(w) && Safe(w, c) && Enabled(w, c, s)
    requires r in Take(w, c, s).phases && InLoop(Take(w, c, s).phases[r])
    ensures InStep(Take(w, c, s), w.files(r), Take(w, c, s).phases[r])
  {
    if r != s.r {
      OtherStaysInStep(w, c, s, r);
    } else if s.ReadRecords? {
      ReadSafe(w, c, s);
    } else {
      LoopStepSafe(w, c, s);
    }
  }

  lemma StepKeepsComplete(w: Setting, c: Cluster, s: Step, r: nat)
    requires Serialised(w) && Safe(w, c) && Enabled(w, c, s)
    requires r in Take(w, c, s).phases && Take(w, c, s).phases[r] == Leaving(Success)
    ensures Complete(Take(w, c, s), w.files(r))
  {
    assert Take(w, c, s).rows == c.rows;
    if r == s.r {
      ConcludeSafe(w, c, s);
    } else {
      assert Complete(c, w.files(r));
    }
  }

  lemma StepSafe(w: Setting, c: Cluster, s: Step)
    requires Serialised(w) && Safe(w, c) && Enabled(w, c, s)
    ensures Safe(w, Take(w, c, s))
  {
    var c' := Take(w, c, s);
    StepKeepsRecords(w, c, s);
    StepKeepsHolder(w, c, s);
    forall r | r in c'.phases && InLoop(c'.phases[r]) ensures InStep(c', w.files(r), c'.phases[r]) {
      StepKeepsInStep(w, c, s, r);
    }
    forall r | r in c'.phases && c'.phases[r] == Leaving(Success) ensures Complete(c', w.files(r)) {
      StepKeepsComplete(w, c, s, r);
    }
  }

  lemma {:induction false} RunSafe(w: Setting, c: Cluster, steps: seq<Step>, end: Cluster)
    requires Serialised(w) && Safe(w, c) && Run(w, c, steps, end)
    ensures Safe(w, end)
    decreases |steps|
  {
    if steps != [] {
      StepSafe(w, c, steps[0]);
      RunSafe(w, Take(w, c, steps[0]), steps[1..], end);
    }
  }

  /** In every reachable state at most one process is past the lock and before its unlock, a
      writing step is taken by the lock holder, and a process that reports success has seen a
      table equal to its files. */
  lemma LockedRuns(w: Setting, c: Cluster, steps: seq<Step>, end: Cluster)
    requires Serialised(w) && Initial(c) && Run(w, c, steps, end)
    ensures forall r, q :: r in end.phases && q in end.phases && InRun(end.phases[r]) && InRun(end.phases[q]) ==> r == q
    ensures forall s :: Enabled(w, end, s) && Take(w, end, s).rows != end.rows ==> end.holder == Some(s.r)
    ensures forall r :: r in end.phases && end.phases[r] == Leaving(Success) ==> Complete(end, w.files(r))
  {
    RunSafe(w, c, steps, end);
    forall s | Enabled(w, end, s) && Take(w, end, s).rows != end.rows ensures end.holder == Some(s.r) {
      OnlyHolderWrites(w, end, s);
    }
  }

  // ---------------------------------------------------------------- every run is a serial one

  /** One undisturbed run from these rows, its statements going that way, leaves those and ends so. */
  ghost predicate SerialFrom(rows0: seq<Record>, attempts: Attempts, rows: seq<Record>, ms: seq<Migration>,
                             outcome: Outcome)
  {
    UniqueRows(rows0) && Ends(rows0, ms, attempts, outcome) && rows == rows0 + RecordsOf(Added(rows0, ms, attempts))
  }

  ghost predicate Serial(rows: seq<Record>, ms: seq<Migration>, outcome: Outcome) {
    exists rows0, attempts :: SerialFrom(rows0, attempts, rows, ms, outcome)
  }

  /** A process that is leaving, or has left, did on its own what a serial run would have done to
      the table as it was then; the table may have grown since. */
  ghost predicate RanSerially(w: Setting, c: Cluster, r: nat)
    requires r in c.phases
  {
    var phase := c.phases[r];
    && (phase.Leaving? && phase.outcome != Unavailable ==> Serial(c.rows, w.files(r), phase.outcome))
    && (phase.Finished? && phase.outcome != Unavailable ==>
          exists n :: 0 <= n <= |c.rows| && Serial(c.rows[..n], w.files(r), phase.outcome))
  }

  function FailsAt(version: int, attempt: Attempt): Attempts {
    (v: int) => if v == version then attempt else Attempt(true, true, true, Works)
  }

  /** Nothing before the stopping file depends on how that file's statements go. */
  lemma PassedAlike(rows: seq<Record>, ms: seq<Migration>, i: nat, attempt: Attempt)
    requires i < |ms| && Ascending(ms) && PassedBefore(rows, ms, NeverFails(), i)
    ensures PassedBefore(rows, ms, FailsAt(ms[i].version, attempt), i)
  {
    forall k | 0 <= k < i ensures !Stops(rows, FailsAt(ms[i].version, attempt), ms[k]) {
      assert !Stops(rows, NeverFails(), ms[k]) && ms[k].version < ms[i].version;
    }
  }

  /** A process that stops at its current file leaves what a serial run stopped there would. */
  lemma StopIsSerial(c: Cluster, ms: seq<Migration>, phase: Phase, attempt: Attempt)
    requires InLoop(phase) && Ascending(ms) && InStep(c, ms, phase) && phase.next < |ms|
    requires Stops(phase.applied, FailsAt(ms[phase.next].version, attempt), ms[phase.next])
    ensures var m := ms[phase.next];
            if Recorded(phase.applied, m.version) then Serial(c.rows, ms, ChecksumMismatch(m.version))
            else Serial(if attempt.Result().Lands() then c.rows + [RecordOf(m)] else c.rows, ms, ApplyFailed(m.version))
  {
    var m := ms[phase.next];
    var attempts := FailsAt(m.version, attempt);
    var added := Pending(phase.applied, ms[..phase.next]);
    PassedAlike(phase.applied, ms, phase.next, attempt);
    StoppedAt(phase.applied, [], c.rows, added, ms, attempts, phase.next);
    var rows := if !Recorded(phase.applied, m.version) && attempt.Result().Lands() then c.rows + [RecordOf(m)]
                else c.rows;
    assert SerialFrom(phase.applied, attempts, rows, ms, if Recorded(phase.applied, m.version)
                                                         then ChecksumMismatch(m.version) else ApplyFailed(m.version));
  }

  lemma MismatchIsSerial(c: Cluster, ms: seq<Migration>, phase: Phase)
    requires phase.Walking? && Ascending(ms) && InStep(c, ms, phase) && phase.next < |ms|
    requires ms[phase.next].version in phase.left
    requires phase.left[ms[phase.next].version].checksum != ms[phase.next].checksum
    ensures Serial(c.rows, ms, ChecksumMismatch(ms[phase.next].version))
  {
    LeftOverStep(phase.left, phase.applied, ms, phase.next);
    StopIsSerial(c, ms, phase, Attempt(true, true, true, Works));
  }

  lemma FailureIsSerial(c: Cluster, ms: seq<Migration>, phase: Phase, attempt: Attempt)
    requires InLoop(phase) && Ascending(ms) && InStep(c, ms, phase) && phase.next < |ms|
    requires ms[phase.next].version !in phase.left && attempt.Result() != Works
    ensures Serial(if attempt.Result().Lands() then c.rows + [RecordOf(ms[phase.next])] else c.rows, ms,
                   ApplyFailed(ms[phase.next].version))
  {
    LeftOverStep(phase.left, phase.applied, ms, phase.next);
    StopIsSerial(c, ms, phase, attempt);
  }

  lemma ConclusionIsSerial(c: Cluster, ms: seq<Migration>, phase: Phase, v: int)
    requires phase.Walking? && Ascending(ms) && InStep(c, ms, phase) && phase.next == |ms|
    requires phase.left != map[] ==> v in phase.left
    ensures Serial(c.rows, ms, if phase.left == map[] then Success else MissingFile(v))
  {
    WentThrough(phase.left, phase.applied, ms, NeverFails());
    assert SerialFrom(phase.applied, NeverFails(), c.rows, ms,
                      if phase.left == map[] then Success else MissingFile(v));
  }

  /** The step in which a process gives up or comes to its end. */
  lemma LeavesSerially(w: Setting, c: Cluster, s: Step)
    requires Serialised(w) && Safe(w, c) && Enabled(w, c, s) && InLoop(c.phases[s.r])
    ensures var c' := Take(w, c, s);
            c'.phases[s.r].Leaving? ==> Serial(c'.rows, w.files(s.r), c'.phases[s.r].outcome)
  {
    var phase, ms := c.phases[s.r], w.files(s.r);
    assert InStep(c, ms, phase);
    if s.Visit? && phase.left[ms[phase.next].version].checksum != ms[phase.next].checksum {
      MismatchIsSerial(c, ms, phase);
    } else if s.Execute? && !s.ok {
      FailureIsSerial(c, ms, phase, Attempt(true, false, true, Works));
    } else if s.InsertRow? && !s.ok {
      FailureIsSerial(c, ms, phase, Attempt(true, true, false, Works));
    } else if s.Commit? && s.fate != Works {
      FailureIsSerial(c, ms, phase, Attempt(true, true, true, s.fate));
    } else if s.Conclude? {
      ConclusionIsSerial(c, ms, phase, s.missing);
    }
  }

  lemma OwnStepRanSerially(w: Setting, c: Cluster, s: Step)
    requires Serialised(w) && Safe(w, c) && Enabled(w, c, s) && RanSerially(w, c, s.r)
    ensures RanSerially(w, Take(w, c, s), s.r)
  {
    if InLoop(c.phases[s.r]) {
      LeavesSerially(w, c, s);
    }
    var rows := Take(w, c, s).rows;
    assert rows[..|rows|] == rows;
  }

  lemma OtherStepRanSerially(w: Setting, c: Cluster, s: Step, r: nat)
    requires Serialised(w) && Safe(w, c) && Enabled(w, c, s) && r in c.phases && r != s.r && RanSerially(w, c, r)
    ensures r in Take(w, c, s).phases && RanSerially(w, Take(w, c, s), r)
  {
    var c' := Take(w, c, s);
    StepKeepsRecords(w, c, s);
    assert c'.phases[r] == c.phases[r];
    if c.phases[r].Finished? && c.phases[r].outcome != Unavailable {
      var n :| 0 <= n <= |c.rows| && Serial(c.rows[..n], w.files(r), c.phases[r].outcome);
      assert c'.rows[..n] == c.rows[..n];
    } else if c.phases[r].Leaving? {
      assert c'.rows == c.rows;
    }
  }

  lemma {:induction false} RunIsSerial(w: Setting, c: Cluster, steps: seq<Step>, end: Cluster)
    requires Serialised(w) && Safe(w, c) && Run(w, c, steps, end) && forall r :: r in c.phases ==> RanSerially(w, c, r)
    ensures forall r :: r in end.phases ==> RanSerially(w, end, r)
    decreases |steps|
  {
    if steps != [] {
      var s, c' := steps[0], Take(w, c, steps[0]);
      StepSafe(w, c, s);
      forall r | r in c'.phases ensures RanSerially(w, c', r) {
        if r == s.r {
          OwnStepRanSerially(w, c, s);
        } else {
          OtherStepRanSerially(w, c, s, r);
        }
      }
      RunIsSerial(w, c', steps[1..], end);
    }
  }

  /** The lock is taken only when it is free, and freed only by its holder's unlock that worked or
      by the loss of its session. */
  lemma LockPassesOn(w: Setting, c: Cluster, s: Step)
    requires w.locking && Enabled(w, c, s)
    ensures Take(w, c, s).holder == if s.Lock? && s.fate.Lands() then Some(s.r)
                                    else if (s.SessionLost? || (s.Unlock? && s.ok)) && c.holder == Some(s.r) then None
                                    else c.holder
    ensures s.Lock? && s.fate.Lands() ==> c.holder == None
  {
  }

  /** Any number of processes with any files under the lock, whatever fails: each of them that was
      not cut off did to the table exactly what an undisturbed run of its own would have done to
      it at that point, and returns that run's outcome. */
  lemma RunsAreSerial(w: Setting, c: Cluster, steps: seq<Step>, end: Cluster)
    requires Serialised(w) && Initial(c) && Run(w, c, steps, end)
    ensures forall r :: r in end.phases ==> RanSerially(w, end, r)
  {
    RunIsSerial(w, c, steps, end);
  }

  /** What a process must have done, and been told was done, to be where it is. */
  predicate Prepared(done: seq<Step>, r: nat, phase: Phase) {
    && (phase.Locked? || phase.Created? || InLoop(phase) ==> Lock(r, Works) in done)
    && (phase.Created? || InLoop(phase) ==> CreateTable(r, true) in done)
    && (InLoop(phase) ==> ReadRecords(r, true) in done)
  }

  lemma PreparedStep(w: Setting, c: Cluster, done: seq<Step>, s: Step, r: nat)
    requires Enabled(w, c, s) && r in c.phases && Prepared(done, r, c.phases[r])
    ensures r in Take(w, c, s).phases && Prepared(done + [s], r, Take(w, c, s).phases[r])
  {
    assert s in done + [s];
    assert r != s.r ==> Take(w, c, s).phases[r] == c.phases[r];
  }

  lemma {:induction false} RunPrepares(w: Setting, c: Cluster, done: seq<Step>, steps: seq<Step>, end: Cluster, r: nat)
    requires Run(w, c, steps, end) && r in c.phases && Prepared(done, r, c.phases[r])
    ensures r in end.phases && Prepared(done + steps, r, end.phases[r])
    decreases |steps|
  {
    if steps == [] {
      assert done + steps == done;
    } else {
      PreparedStep(w, c, done, steps[0], r);
      RunPrepares(w, Take(w, c, steps[0]), done + [steps[0]], steps[1..], end, r);
      assert done + [steps[0]] + steps[1..] == done + steps;
    }
  }

  /** A process is in its loop only after its lock, its table and its read were reported to work. */
  lemma LoopsArePrepared(w: Setting, c: Cluster, steps: seq<Step>, end: Cluster, r: nat)
    requires Initial(c) && Run(w, c, steps, end) && r in c.phases
    ensures r in end.phases
    ensures InLoop(end.phases[r]) ==>
              Lock(r, Works) in steps && CreateTable(r, true) in steps && ReadRecords(r, true) in steps
  {
    RunPrepares(w, c, [], steps, end, r);
    assert [] + steps == steps;
  }

  // ---------------------------------------------------------------- replicas of one release

  /** Nothing goes wrong in this step. */
  predicate Clean(s: Step) {
    match s
    case Lock(_, fate) => fate == Works
    case CreateTable(_, ok) => ok
    case ReadRecords(_, ok) => ok
    case Visit(_) => true
    case Execute(_, ok) => ok
    case InsertRow(_, ok) => ok
    case Commit(_, fate) => fate == Works
    case Conclude(_, _) => true
    case Unlock(_, ok) => ok
    case SessionLost(_) => false
  }

  /** All processes ship the same files, and the table holds nothing else. */
  ghost predicate OneRelease(w: Setting, c: Cluster, ms: seq<Migration>) {
    && Serialised(w) && (forall r :: w.files(r) == ms)
    && (forall row :: row in c.rows ==> HasFileAs(ms, row.version, row.checksum))
  }

  ghost predicate AllWell(c: Cluster, ms: seq<Migration>) {
    && (forall r :: r in c.phases && (c.phases[r].Leaving? || c.phases[r].Finished?) ==>
          c.phases[r].outcome == Success && Complete(c, ms))
    && (c.holder.Some? ==> c.holder.value in c.phases && InRun(c.phases[c.holder.value]))
  }

  lemma RowsHaveFiles(w: Setting, c: Cluster, s: Step, ms: seq<Migration>)
    requires OneRelease(w, c, ms) && Enabled(w, c, s)
    ensures OneRelease(w, Take(w, c, s), ms)
  {
  }

  /** A recorded file is recorded with its own checksum. */
  lemma VisitMatches(w: Setting, c: Cluster, s: Step, ms: seq<Migration>)
    requires OneRelease(w, c, ms) && Safe(w, c) && Enabled(w, c, s) && s.Visit?
    ensures Take(w, c, s).phases[s.r].Walking?
  {
  }

  /** Every record has its file, so nothing is left over at the end. */
  lemma NothingLeftOver(w: Setting, c: Cluster, r: nat, ms: seq<Migration>)
    requires OneRelease(w, c, ms) && Safe(w, c)
    requires r in c.phases && c.phases[r].Walking? && c.phases[r].next == |ms|
    ensures c.phases[r].left == map[]
  {
    var phase := c.phases[r];
    assert ms[..|ms|] == ms;
    forall v | Recorded(phase.applied, v) ensures HasFile(ms, v) {
      var i :| 0 <= i < |phase.applied| && phase.applied[i].version == v;
      var row := phase.applied[i];
      assert row in c.rows;
      var k :| 0 <= k < |ms| && ms[k].version == row.version && ms[k].checksum == row.checksum;
    }
    assert ms[..phase.next] == ms;
    assert forall v :: v !in phase.left;
  }

  /** Once the table equals the files nobody commits any more. */
  lemma CompleteIsFinal(w: Setting, c: Cluster, s: Step, ms: seq<Migration>)
    requires OneRelease(w, c, ms) && Enabled(w, c, s) && Complete(c, ms)
    ensures Take(w, c, s).rows == c.rows
  {
    if s.Commit? {
      var m := ms[c.phases[s.r].next];
      assert HasFileAs(ms, m.version, m.checksum);
      assert RecordedAs(c.rows, m.version, m.checksum);
      assert Recorded(c.rows, m.version);
    }
  }

  lemma CleanStep(w: Setting, c: Cluster, s: Step, ms: seq<Migration>)
    requires OneRelease(w, c, ms) && Safe(w, c) && AllWell(c, ms) && Enabled(w, c, s) && Clean(s)
    ensures AllWell(Take(w, c, s), ms)
  {
    var c' := Take(w, c, s);
    HolderRuns(w, c, s, ms);
    forall r | r in c'.phases && (c'.phases[r].Leaving? || c'.phases[r].Finished?)
      ensures c'.phases[r].outcome == Success && Complete(c', ms)
    {
      if r != s.r || s.Unlock? {
        assert c.phases[r].outcome == c'.phases[r].outcome;
        CompleteIsFinal(w, c, s, ms);
      } else {
        CleanLeaving(w, c, s, ms);
      }
    }
  }

  lemma HolderRuns(w: Setting, c: Cluster, s: Step, ms: seq<Migration>)
    requires OneRelease(w, c, ms) && Safe(w, c) && AllWell(c, ms) && Enabled(w, c, s) && Clean(s)
    ensures var c' := Take(w, c, s);
            c'.holder.Some? ==> c'.holder.value in c'.phases && InRun(c'.phases[c'.holder.value])
  {
  }

  /** A clean step with which a process leaves its run is its conclusion, and it succeeds. */
  lemma CleanLeaving(w: Setting, c: Cluster, s: Step, ms: seq<Migration>)
    requires OneRelease(w, c, ms) && Safe(w, c) && Enabled(w, c, s) && Clean(s) && !s.Unlock?
    ensures var c' := Take(w, c, s);
            c'.phases[s.r].Leaving? || c'.phases[s.r].Finished? ==>
              c'.phases[s.r].outcome == Success && Complete(c', ms)
  {
    if s.Visit? {
      VisitMatches(w, c, s, ms);
    } else if s.Conclude? {
      NothingLeftOver(w, c, s.r, ms);
      ConcludeSafe(w, c, s);
    }
  }

  lemma {:induction false} CleanRun(w: Setting, c: Cluster, steps: seq<Step>, end: Cluster, ms: seq<Migration>)
    requires OneRelease(w, c, ms) && Safe(w, c) && AllWell(c, ms) && Run(w, c, steps, end)
    requires forall i :: 0 <= i < |steps| ==> Clean(steps[i])
    ensures OneRelease(w, end, ms) && Safe(w, end) && AllWell(end, ms)
    decreases |steps|
  {
    if steps != [] {
      StepSafe(w, c, steps[0]);
      CleanStep(w, c, steps[0], ms);
      RowsHaveFiles(w, c, steps[0], ms);
      CleanRun(w, Take(w, c, steps[0]), steps[1..], end, ms);
    }
  }

  /** As long as some process has not returned, some clean step can be taken. */
  lemma SomeoneCanMove(w: Setting, c: Cluster, r: nat, ms: seq<Migration>) returns (s: Step)
    requires OneRelease(w, c, ms) && Safe(w, c) && AllWell(c, ms)
    requires r in c.phases && !c.phases[r].Finished?
    ensures Enabled(w, c, s) && Clean(s)
  {
    var q := if c.holder.Some? then c.holder.value else r;
    var phase := c.phases[q];
    match phase
    case Idle => s := Lock(q, Works);
    case Locked => s := CreateTable(q, true);
    case Created => s := ReadRecords(q, true);
    case Walking(applied, next, left) =>
      if next == |ms| {
        NothingLeftOver(w, c, q, ms);
        s := Conclude(q, 0);
      } else if ms[next].version in left {
        s := Visit(q);
      } else {
        s := Execute(q, true);
      }
    case Executed(applied, next, left) =>
      LeftOverStep(left, applied, ms, next);
      s := InsertRow(q, true);
    case Inserted(applied, next, left) =>
      LeftOverStep(left, applied, ms, next);
      s := Commit(q, Works);
    case Leaving(_) => s := Unlock(q, true);
  }

  /** How many steps a process can still take. */
  function StepsLeft(phase: Phase, ms: seq<Migration>): nat {
    match phase
    case Idle => 3 * |ms| + 6
    case Locked => 3 * |ms| + 5
    case Created => 3 * |ms| + 4
    case Walking(_, next, _) => if next <= |ms| then 3 * (|ms| - next) + 3 else 3
    case Executed(_, next, _) => if next < |ms| then 3 * (|ms| - next) + 2 else 3
    case Inserted(_, next, _) => if next < |ms| then 3 * (|ms| - next) + 1 else 3
    case Leaving(_) => 1
    case Finished(_) => 0
  }

  lemma StepsRunOut(w: Setting, c: Cluster, s: Step)
    requires Enabled(w, c, s) && Clean(s)
    ensures StepsLeft(Take(w, c, s).phases[s.r], w.files(s.r)) < StepsLeft(c.phases[s.r], w.files(s.r))
    ensures forall r :: r in c.phases && r != s.r ==> Take(w, c, s).phases[r] == c.phases[r]
    ensures Take(w, c, s).phases.Keys == c.phases.Keys
  {
  }

  /** How many steps these processes can still take together. */
  ghost function TotalLeft(w: Setting, c: Cluster, rs: seq<nat>): nat {
    if rs == [] then 0
    else (if rs[0] in c.phases then StepsLeft(c.phases[rs[0]], w.files(rs[0])) else 0) + TotalLeft(w, c, rs[1..])
  }

  lemma {:induction false} TotalRunsOut(w: Setting, c: Cluster, s: Step, rs: seq<nat>)
    requires Enabled(w, c, s) && Clean(s)
    ensures TotalLeft(w, Take(w, c, s), rs) <= TotalLeft(w, c, rs)
    ensures s.r in rs ==> TotalLeft(w, Take(w, c, s), rs) < TotalLeft(w, c, rs)
  {
    if rs != [] {
      StepsRunOut(w, c, s);
      TotalRunsOut(w, c, s, rs[1..]);
    }
  }

  lemma {:induction false} TotalAtFirst(w: Setting, c: Cluster, rs: seq<nat>, ms: seq<Migration>)
    requires (forall r :: w.files(r) == ms) && forall r :: r in c.phases ==> c.phases[r] == Idle
    ensures TotalLeft(w, c, rs) <= |rs| * (3 * |ms| + 6)
  {
    if rs != [] {
      TotalAtFirst(w, c, rs[1..], ms);
      assert |rs| * (3 * |ms| + 6) == |rs[1..]| * (3 * |ms| + 6) + (3 * |ms| + 6);
    }
  }

  lemma {:induction false} RunFitsTotal(w: Setting, c: Cluster, steps: seq<Step>, end: Cluster, rs: seq<nat>)
    requires Run(w, c, steps, end) && forall i :: 0 <= i < |steps| ==> Clean(steps[i])
    requires forall r :: r in c.phases ==> r in rs
    ensures |steps| <= TotalLeft(w, c, rs)
    decreases |steps|
  {
    if steps != [] {
      StepsRunOut(w, c, steps[0]);
      TotalRunsOut(w, c, steps[0], rs);
      RunFitsTotal(w, Take(w, c, steps[0]), steps[1..], end, rs);
    }
  }

  lemma {:induction false} Enumerate(keys: set<nat>) returns (rs: seq<nat>)
    ensures |rs| == |keys| && forall r :: r in keys <==> r in rs
    decreases |keys|
  {
    if keys == {} {
      rs := [];
    } else {
      var r :| r in keys;
      var rest := Enumerate(keys - {r});
      rs := [r] + rest;
    }
  }

  /** A run without failures takes at most three steps for each file and six more for each
      process, so every such run comes to its end. */
  lemma CleanRunsEnd(w: Setting, c: Cluster, steps: seq<Step>, end: Cluster, ms: seq<Migration>)
    requires (forall r :: w.files(r) == ms) && Initial(c) && Run(w, c, steps, end)
    requires forall i :: 0 <= i < |steps| ==> Clean(steps[i])
    ensures |steps| <= |c.phases| * (3 * |ms| + 6)
  {
    var rs := Enumerate(c.phases.Keys);
    RunFitsTotal(w, c, steps, end, rs);
    TotalAtFirst(w, c, rs, ms);
    assert |rs| == |c.phases|;
  }

  /** Replicas of one release starting together: when no statement fails, a run that cannot
      go on has every process returning success, with the table equal to the files. */
  lemma EveryReplicaSucceeds(w: Setting, c: Cluster, steps: seq<Step>, end: Cluster, ms: seq<Migration>)
    requires OneRelease(w, c, ms) && Initial(c) && Run(w, c, steps, end)
    requires forall i :: 0 <= i < |steps| ==> Clean(steps[i])
    ensures forall r :: r in end.phases && end.phases[r].Finished? ==> end.phases[r] == Finished(Success)
    ensures (forall s :: Enabled(w, end, s) ==> !Clean(s)) ==>
              forall r :: r in end.phases ==> end.phases[r] == Finished(Success) && Complete(end, ms)
    ensures |steps| <= |c.phases| * (3 * |ms| + 6)
  {
    CleanRunsEnd(w, c, steps, end, ms);
    CleanRun(w, c, steps, end, ms);
    if forall s :: Enabled(w, end, s) ==> !Clean(s) {
      forall r | r in end.phases ensures end.phases[r] == Finished(Success) && Complete(end, ms) {
        if !end.phases[r].Finished? {
          var s := SomeoneCanMove(w, end, r, ms);
        }
      }
    }
  }
}
